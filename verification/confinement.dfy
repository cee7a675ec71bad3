/// Path confinement: a requested path is walked component by component, links are
/// resolved as they are met, and anything that leaves the root is refused.
module Confinement {
  import opened Prelude
  import opened Filesystem

  datatype Refusal = NulByte | RootMissing | ParentSegment | BrokenLink(at: Name) | LinkEscapes(at: Name)
    | AncestorOutside | ResultOutside

  /** `NeverReturns`: a `realpathSync` on the way does not end. */
  datatype Result = Confined(path: Path) | Refused(why: Refusal) | NeverReturns

  // ----- paths as strings -----

  function Body(p: Path): string {
    if p == [] then "" else "/" + p[0] + Body(p[1..])
  }

  function Render(p: Path): string {
    if p == [] then "/" else Body(p)
  }

  function WithTrailingSep(s: string): string {
    if s != "" && Last(s) == '/' then s else s + "/"
  }

  /** The string test of the source: equal, or starting with the root and a separator. */
  predicate IsInside(rootReal: string, target: string) {
    target == rootReal || WithTrailingSep(rootReal) <= target
  }

  lemma FirstComponent(a: Name, x: string, b: Name, y: string)
    requires '/' !in a && '/' !in b
    requires x != "" && x[0] == '/' && (y == "" || y[0] == '/')
    requires a + x <= b + y
    ensures a == b && x <= y
  {
    var s, t := a + x, b + y;
    assert t[|a|] == s[|a|] == '/';
    forall i | 0 <= i < |a| ensures t[i] != '/' {
      assert t[i] == s[i] == a[i] && a[i] in a;
    }
    forall i | 0 <= i < |b| ensures t[i] != '/' {
      assert t[i] == b[i] && b[i] in b;
    }
    assert |t| > |b| ==> t[|b|] == '/';
    assert |a| == |b|;
    assert forall i | 0 <= i < |a| :: a[i] == s[i] == t[i] == b[i];
    assert forall i | 0 <= i < |x| :: x[i] == s[|a| + i] == t[|a| + i] == y[i];
  }

  lemma {:induction false} BodyCons(p: Path)
    requires p != []
    ensures Body(p) == "/" + (p[0] + Body(p[1..])) && Body(p) + "/" == "/" + (p[0] + (Body(p[1..]) + "/"))
  {
    ConcatAssociates("/", p[0], Body(p[1..]));
    ConcatAssociates("/", p[0] + Body(p[1..]), "/");
    ConcatAssociates(p[0], Body(p[1..]), "/");
  }

  lemma PrefixCons(root: Path, target: Path)
    requires root != [] && target != []
    ensures root < target <==> root[0] == target[0] && root[1..] < target[1..]
  {
    assert root == [root[0]] + root[1..] && target == [target[0]] + target[1..];
  }

  /** A string that begins with a component and a separator begins with that very component. */
  lemma SameComponent(a: Name, x: string, b: Name, y: string)
    requires '/' !in a && '/' !in b && x != "" && x[0] == '/' && (y == "" || y[0] == '/')
    ensures "/" + (a + x) <= "/" + (b + y) <==> a == b && x <= y
  {
    if "/" + (a + x) <= "/" + (b + y) {
      DropFirst(a + x, b + y);
      FirstComponent(a, x, b, y);
    }
  }

  lemma {:induction false} BodyPrefix(root: Path, target: Path)
    requires PlainPath(root) && PlainPath(target)
    ensures Body(root) + "/" <= Body(target) <==> root < target
  {
    if root == [] {
      if target != [] {
        assert Body(target)[0] == '/';
      }
    } else if target != [] {
      BodyPrefix(root[1..], target[1..]);
      BodyCons(root);
      BodyCons(target);
      PrefixCons(root, target);
      SameComponent(root[0], Body(root[1..]) + "/", target[0], Body(target[1..]));
    }
  }

  lemma DropFirst(a: string, b: string)
    requires "/" + a <= "/" + b
    ensures a <= b
  {
    assert ("/" + a)[1..] == a && ("/" + b)[1..] == b;
    assert forall i | 0 <= i < |a| :: a[i] == ("/" + a)[i + 1] == ("/" + b)[i + 1] == b[i];
  }

  lemma {:induction false} BodyIsInjective(p: Path, q: Path)
    requires PlainPath(p) && PlainPath(q) && Body(p) == Body(q)
    ensures p == q
  {
    if p != [] && q != [] {
      var x, y := Body(p[1..]), Body(q[1..]);
      assert Body(p) == "/" + (p[0] + x) && Body(q) == "/" + (q[0] + y);
      assert p[0] + x + "/" == q[0] + y + "/" by {
        assert ("/" + (p[0] + x))[1..] == p[0] + x && ("/" + (q[0] + y))[1..] == q[0] + y;
      }
      ConcatAssociates(p[0], x, "/");
      ConcatAssociates(q[0], y, "/");
      FirstComponent(p[0], x + "/", q[0], y + "/");
      assert x == y by {
        assert |x + "/"| == |y + "/"|;
        assert (x + "/")[..|x|] == x && (y + "/")[..|y|] == y;
      }
      BodyIsInjective(p[1..], q[1..]);
      assert p == [p[0]] + p[1..] && q == [q[0]] + q[1..];
    }
  }

  lemma {:induction false} BodyHasNoTrailingSep(p: Path)
    requires PlainPath(p) && p != []
    ensures Body(p) != "" && Last(Body(p)) != '/'
  {
    if |p| == 1 {
      assert p[1..] == [] && Body(p) == "/" + p[0];
      assert Last(p[0]) in p[0];
    } else {
      BodyHasNoTrailingSep(p[1..]);
    }
  }

  /**
   * The string comparison decides exactly whether the target is the root or below it:
   * a sibling whose name merely starts with the root's name is not inside.
   */
  lemma InsideIsPrefix(root: Path, target: Path)
    requires PlainPath(root) && PlainPath(target)
    ensures IsInside(Render(root), Render(target)) <==> root <= target
  {
    BodyPrefix(root, target);
    if root == [] {
      if target != [] {
        assert Body(target)[0] == '/';
        assert "/" <= Body(target);
      }
    } else {
      BodyHasNoTrailingSep(root);
      if target == [] {
        assert |Body(root)| > 1 by {
          assert Body(root)[0] == '/' && Last(Body(root)) != '/';
        }
      } else if Render(target) == Render(root) {
        BodyIsInjective(root, target);
      }
      if root == target {
        assert Render(root) == Render(target);
      }
    }
  }

  // ----- the requested path -----

  predicate IsSeparator(c: char) {
    c == '/' || c == '\\'
  }

  /** `split(/[\\/]+/)` without the empty parts and the `.` parts. */
  function Parts(s: string): seq<Name> {
    PartsFrom(s, "")
  }

  function Kept(token: string): seq<Name> {
    if token == "" || token == "." then [] else [token]
  }

  function PartsFrom(s: string, token: string): seq<Name>
    decreases |s|
  {
    if s == "" then Kept(token)
    else if IsSeparator(s[0]) then Kept(token) + PartsFrom(s[1..], "")
    else PartsFrom(s[1..], token + [s[0]])
  }

  lemma {:induction false} PartsHaveNoSeparator(s: string, token: string)
    requires forall c | c in token :: !IsSeparator(c)
    ensures forall p | p in PartsFrom(s, token) :: p != "" && p != "." && forall c | c in p :: !IsSeparator(c)
    decreases |s|
  {
    if s != "" {
      if IsSeparator(s[0]) {
        PartsHaveNoSeparator(s[1..], "");
      } else {
        PartsHaveNoSeparator(s[1..], token + [s[0]]);
      }
    }
  }

  // ----- the walk -----

  /** The walk from `current`, without the checks that close the source function. */
  function Walk(fs: Tree, rootReal: Path, current: Path, parts: seq<Name>, fuel: nat): Result
    decreases |parts|
  {
    if parts == [] then Confined(current)
    else
      var next := current + [parts[0]];
      match LStat(fs, next)
      case Some(Link(_)) =>
        (match RealpathSync(fs, next, fuel)
         case Missing => Refused(BrokenLink(parts[0]))
         case Endless => NeverReturns
         case At(target) =>
           if rootReal <= target then Walk(fs, rootReal, target, parts[1..], fuel)
           else Refused(LinkEscapes(parts[0])))
      case _ => Walk(fs, rootReal, next, parts[1..], fuel)
  }

  function Spec(fs: Tree, rootDir: seq<Name>, requested: string, fuel: nat): Result {
    if '\0' in requested then Refused(NulByte)
    else match RealpathSync(fs, rootDir, fuel)
      case Missing => Refused(RootMissing)
      case Endless => NeverReturns
      case At(rootReal) =>
        if ".." in Parts(requested) then Refused(ParentSegment)
        else Walk(fs, rootReal, rootReal, Parts(requested), fuel)
  }

  /** Deepest existing ancestor. */
  function Probe(fs: Tree, p: Path): (q: Path)
    ensures q <= p
    ensures q == [] || LStat(fs, q).Some?
  {
    if LStat(fs, p).Some? || p == [] then p else Probe(fs, Init(p))
  }

  lemma StepKeepsGrounded(fs: Tree, rootReal: Path, current: Path, part: Name, fuel: nat)
    requires WellFormed(fs) && Real(fs, rootReal) && rootReal <= current && Grounded(fs, current) && PlainName(part)
    ensures LStat(fs, current + [part]).Some? <==> current + [part] in fs
    ensures LStat(fs, current + [part]).Some? && LStat(fs, current + [part]).value.Link? ==>
              forall actual | RealpathSync(fs, current + [part], fuel) == At(actual) :: Grounded(fs, actual)
    ensures !(LStat(fs, current + [part]).Some? && LStat(fs, current + [part]).value.Link?) ==>
              Grounded(fs, current + [part]) && rootReal <= current + [part]
  {
    GroundedLStat(fs, current, part);
    var next := current + [part];
    if next in fs && fs[next].Link? {
      FoundIsReal(fs, next, fuel);
    } else {
      GroundedSnoc(fs, current, part);
    }
  }

  lemma PartsArePlain(requested: string)
    requires ".." !in Parts(requested)
    ensures PlainPath(Parts(requested))
  {
    PartsHaveNoSeparator(requested, "");
    forall i | 0 <= i < |Parts(requested)| ensures PlainName(Parts(requested)[i]) {
      assert Parts(requested)[i] in Parts(requested);
    }
  }

  /** On a link-free path below a real root, the closing checks of the source cannot fail. */
  lemma {:induction false} ClosingChecksPass(fs: Tree, rootReal: Path, p: Path, fuel: nat)
    requires WellFormed(fs) && Real(fs, rootReal) && PlainPath(rootReal) && rootReal <= p && Grounded(fs, p)
    ensures var q := Probe(fs, p);
            && rootReal <= q
            && !RealpathSync(fs, q, fuel).Endless?
            && (RealpathSync(fs, q, fuel).At? ==> RealpathSync(fs, q, fuel).path == q && PlainPath(q))
    decreases |p|
  {
    if p != [] {
      assert p == Init(p) + [Last(p)];
      GroundedInit(fs, p);
      GroundedLStat(fs, Init(p), Last(p));
    }
    if p in fs || p == [] {
      GroundedRealpath(fs, p, fuel);
    } else {
      assert rootReal != p;
      assert rootReal <= Init(p) by {
        assert |rootReal| < |p|;
        assert rootReal == p[..|rootReal|] == Init(p)[..|rootReal|];
      }
      ClosingChecksPass(fs, rootReal, Init(p), fuel);
    }
  }

  lemma GroundedInit(fs: Tree, p: Path)
    requires Grounded(fs, p) && p != []
    ensures Grounded(fs, Init(p))
  {
    forall k | 0 <= k <= |Init(p)| ensures Init(p)[..k] in fs ==> !fs[Init(p)[..k]].Link? {
      assert Init(p)[..k] == p[..k];
    }
  }

  lemma RealIsGrounded(fs: Tree, p: Path)
    requires WellFormed(fs) && Real(fs, p)
    ensures Grounded(fs, p)
  {
  }

  /** `fuel` is how often one `realpathSync` may start again before it is taken not to return. */
  method ConfinePath(fs: Tree, rootDir: seq<Name>, requested: string, fuel: nat) returns (r: Result)
    requires WellFormed(fs)
    ensures r == Spec(fs, rootDir, requested, fuel)
    ensures r.Confined? ==>
              && RealpathSync(fs, rootDir, fuel).At?
              && RealpathSync(fs, rootDir, fuel).path <= r.path
              && Grounded(fs, r.path)
  {
    if '\0' in requested {
      return Refused(NulByte);
    }
    var root := RealpathSync(fs, rootDir, fuel);
    if root.Endless? {
      return NeverReturns;
    }
    if root.Missing? {
      return Refused(RootMissing);
    }
    var rootReal := root.path;
    var parts := Parts(requested);
    if ".." in parts {
      return Refused(ParentSegment);
    }
    FoundIsReal(fs, rootDir, fuel);
    RealIsGrounded(fs, rootReal);
    PartsArePlain(requested);
    r := WalkParts(fs, rootReal, parts, fuel);
    if r.Confined? {
      r := CloseWalk(fs, rootReal, r.path, fuel);
    }
  }

  /** The component loop. */
  method WalkParts(fs: Tree, rootReal: Path, parts: seq<Name>, fuel: nat) returns (r: Result)
    requires WellFormed(fs) && Real(fs, rootReal) && Grounded(fs, rootReal) && PlainPath(parts)
    ensures r == Walk(fs, rootReal, rootReal, parts, fuel)
    ensures r.Confined? ==> rootReal <= r.path && Grounded(fs, r.path)
  {
    var current := rootReal;
    var i := 0;
    while i < |parts|
      invariant 0 <= i <= |parts|
      invariant rootReal <= current && Grounded(fs, current)
      invariant Walk(fs, rootReal, current, parts[i..], fuel) == Walk(fs, rootReal, rootReal, parts, fuel)
    {
      var part := parts[i];
      var next := current + [part];
      assert parts[i..][0] == part && parts[i..][1..] == parts[i + 1..];
      StepKeepsGrounded(fs, rootReal, current, part, fuel);
      var st := LStat(fs, next);
      if st.Some? && st.value.Link? {
        var target := RealpathSync(fs, next, fuel);
        if target.Endless? {
          return NeverReturns;
        }
        if target.Missing? {
          return Refused(BrokenLink(part));
        }
        InsideIsPrefix(rootReal, target.path);
        if !IsInside(Render(rootReal), Render(target.path)) {
          return Refused(LinkEscapes(part));
        }
        current := target.path;
      } else {
        current := next;
      }
      i := i + 1;
    }
    assert parts[i..] == [];
    return Confined(current);
  }

  /** The search for the deepest existing ancestor and the two checks behind it, which never refuse. */
  method CloseWalk(fs: Tree, rootReal: Path, finalPath: Path, fuel: nat) returns (r: Result)
    requires WellFormed(fs) && Real(fs, rootReal) && Grounded(fs, rootReal)
    requires rootReal <= finalPath && Grounded(fs, finalPath)
    ensures r == Confined(finalPath)
  {
    var probe := finalPath;
    while LStat(fs, probe).None? && probe != []
      invariant Probe(fs, probe) == Probe(fs, finalPath)
      decreases |probe|
    {
      probe := Init(probe);
    }
    ClosingChecksPass(fs, rootReal, finalPath, fuel);
    var probeReal := RealpathSync(fs, probe, fuel);
    if probeReal.At? {
      InsideIsPrefix(rootReal, probeReal.path);
      if !IsInside(Render(rootReal), Render(probeReal.path)) {
        return Refused(AncestorOutside);
      }
    }
    InsideIsPrefix(rootReal, finalPath);
    if !IsInside(Render(rootReal), Render(finalPath)) {
      return Refused(ResultOutside);
    }
    return Confined(finalPath);
  }

  /** A result does not depend on the fuel: more of it can only turn `NeverReturns` into a result. */
  lemma {:induction false} WalkMoreFuel(
      fs: Tree, rootReal: Path, current: Path, parts: seq<Name>, fuel: nat, more: nat)
    requires !Walk(fs, rootReal, current, parts, fuel).NeverReturns?
    ensures Walk(fs, rootReal, current, parts, fuel + more) == Walk(fs, rootReal, current, parts, fuel)
    decreases |parts|
  {
    if parts != [] {
      var next := current + [parts[0]];
      match LStat(fs, next) {
        case Some(Link(_)) =>
          NodeWalkMoreFuel(fs, [], Normalize([], next), fuel, more);
          match RealpathSync(fs, next, fuel) {
            case At(target) =>
              if rootReal <= target {
                WalkMoreFuel(fs, rootReal, target, parts[1..], fuel, more);
              }
            case _ =>
          }
        case _ => WalkMoreFuel(fs, rootReal, next, parts[1..], fuel, more);
      }
    }
  }

  lemma SpecMoreFuel(fs: Tree, rootDir: seq<Name>, requested: string, fuel: nat, more: nat)
    requires !Spec(fs, rootDir, requested, fuel).NeverReturns?
    ensures Spec(fs, rootDir, requested, fuel + more) == Spec(fs, rootDir, requested, fuel)
  {
    if '\0' !in requested {
      NodeWalkMoreFuel(fs, [], Normalize([], rootDir), fuel, more);
      var root := RealpathSync(fs, rootDir, fuel);
      if root.At? && ".." !in Parts(requested) {
        WalkMoreFuel(fs, root.path, root.path, Parts(requested), fuel, more);
      }
    }
  }

  // ----- agreement with the kernel -----

  /** For a link the kernel follows by straight links only, `realpathSync` is what the kernel finds. */
  lemma {:induction false} LinkIsKernels(fs: Tree, current: Path, part: Name, kernel: nat, fuel: nat)
    requires WellFormed(fs) && Real(fs, current) && PlainName(part) && kernel <= LINK_LIMIT <= fuel
    requires Resolve(fs, current, [part], kernel).Some? && Straight(fs, current, [part], kernel)
    ensures RealpathSync(fs, current + [part], fuel) == At(Resolve(fs, current, [part], kernel).value.path)
  {
    RealIsGrounded(fs, current);
    StraightAgrees(fs, current, [part], kernel, fuel);
    NormalizePlain(current, [part]);
    PlainIsNormal(current + [part]);
  }

  /** The walk at a link that leads to `target`. */
  lemma {:induction false} WalkFollows(
      fs: Tree, rootReal: Path, current: Path, part: Name, rest: seq<Name>, fuel: nat, target: Path)
    requires LStat(fs, current + [part]).Some? && LStat(fs, current + [part]).value.Link?
    requires RealpathSync(fs, current + [part], fuel) == At(target)
    ensures Walk(fs, rootReal, current, [part] + rest, fuel)
         == if rootReal <= target then Walk(fs, rootReal, target, rest, fuel) else Refused(LinkEscapes(part))
  {
    assert ([part] + rest)[1..] == rest;
  }

  /** The kernel past a component that is no link. */
  lemma {:induction false} KernelPasses(fs: Tree, current: Path, part: Name, rest: seq<Name>, kernel: nat)
    requires WellFormed(fs) && Real(fs, current) && PlainName(part)
    requires Resolve(fs, current, [part] + rest, kernel).Some? && Straight(fs, current, [part] + rest, kernel)
    ensures current + [part] in fs
    ensures !fs[current + [part]].Link? ==>
              && Resolve(fs, current, [part] + rest, kernel) == Resolve(fs, current + [part], rest, kernel)
              && Straight(fs, current + [part], rest, kernel)
  {
    assert ([part] + rest)[1..] == rest;
  }

  /**
   * If the request names an existing object, and no link followed on the way has a
   * `..` behind a name, the walk either returns that object's real path or refuses
   * because a link on the way leaves the root.
   */
  lemma {:induction false} WalkFindsWhatTheKernelFinds(
      fs: Tree, rootReal: Path, current: Path, parts: seq<Name>, kernel: nat, fuel: nat)
    requires WellFormed(fs) && rootReal <= current && Real(fs, current) && PlainPath(parts)
    requires kernel <= LINK_LIMIT <= fuel
    requires Resolve(fs, current, parts, kernel).Some? && Straight(fs, current, parts, kernel)
    ensures IsKernels(Walk(fs, rootReal, current, parts, fuel), Resolve(fs, current, parts, kernel).value.path)
    decreases |parts|, 1
  {
    if parts != [] {
      var part, rest := parts[0], parts[1..];
      assert parts == [part] + rest;
      RealIsGrounded(fs, current);
      GroundedLStat(fs, current, part);
      KernelPasses(fs, current, part, rest, kernel);
      if fs[current + [part]].Link? {
        WalkAtLink(fs, rootReal, current, part, rest, kernel, fuel);
      } else {
        RealSnoc(fs, current, part);
        WalkFindsWhatTheKernelFinds(fs, rootReal, current + [part], rest, kernel, fuel);
      }
    }
  }

  predicate IsKernels(r: Result, path: Path) {
    r == Confined(path) || (r.Refused? && r.why.LinkEscapes?)
  }

  lemma {:induction false} WalkAtLink(
      fs: Tree, rootReal: Path, current: Path, part: Name, rest: seq<Name>, kernel: nat, fuel: nat)
    requires WellFormed(fs) && rootReal <= current && Real(fs, current) && PlainName(part) && PlainPath(rest)
    requires LStat(fs, current + [part]).Some? && LStat(fs, current + [part]).value.Link?
    requires kernel <= LINK_LIMIT <= fuel
    requires Resolve(fs, current, [part] + rest, kernel).Some? && Straight(fs, current, [part] + rest, kernel)
    ensures IsKernels(
              Walk(fs, rootReal, current, [part] + rest, fuel), Resolve(fs, current, [part] + rest, kernel).value.path)
    decreases |rest| + 1, 0
  {
    var found := LinkReached(fs, current, part, rest, kernel, fuel);
    WalkFollows(fs, rootReal, current, part, rest, fuel, found.path);
    if rootReal <= found.path {
      WalkFindsWhatTheKernelFinds(fs, rootReal, found.path, rest, found.fuel, fuel);
    }
  }

  /** The kernel and `realpathSync` go to the same place at such a link. */
  lemma LinkReached(fs: Tree, current: Path, part: Name, rest: seq<Name>, kernel: nat, fuel: nat)
    returns (found: Found)
    requires WellFormed(fs) && Real(fs, current) && PlainName(part) && kernel <= LINK_LIMIT <= fuel
    requires Resolve(fs, current, [part] + rest, kernel).Some? && Straight(fs, current, [part] + rest, kernel)
    ensures RealpathSync(fs, current + [part], fuel) == At(found.path) && Real(fs, found.path)
    ensures found.fuel <= kernel && Straight(fs, found.path, rest, found.fuel)
    ensures Resolve(fs, current, [part] + rest, kernel) == Resolve(fs, found.path, rest, found.fuel)
  {
    LinkStep(fs, current, part, rest, kernel);
    StraightAppend(fs, current, [part], rest, kernel);
    LinkIsKernels(fs, current, part, kernel, fuel);
    FoundIsReal(fs, current + [part], fuel);
    found := Resolve(fs, current, [part], kernel).value;
  }

  /** The kernel's walk in two stages. */
  lemma {:induction false} LinkStep(fs: Tree, current: Path, part: Name, rest: seq<Name>, fuel: nat)
    requires Resolve(fs, current, [part] + rest, fuel).Some?
    ensures Resolve(fs, current, [part], fuel).Some?
    ensures var found := Resolve(fs, current, [part], fuel).value;
            Resolve(fs, current, [part] + rest, fuel) == Resolve(fs, found.path, rest, found.fuel)
  {
    if rest == [] {
      assert [part] + rest == [part];
    } else {
      ResolveAppend(fs, current, [part], rest, fuel);
    }
  }

  /**
   * What is confined is what was asked for, as the kernel would resolve it, as long as
   * no link on the way has a `..` behind a name.
   */
  lemma {:induction false} ConfinedIsRequested(fs: Tree, rootDir: seq<Name>, requested: string, fuel: nat)
    requires WellFormed(fs) && '\0' !in requested && ".." !in Parts(requested) && LINK_LIMIT <= fuel
    requires RealpathSync(fs, rootDir, fuel).At?
    requires var rootReal := RealpathSync(fs, rootDir, fuel).path;
             && Resolve(fs, rootReal, Parts(requested), LINK_LIMIT).Some?
             && Straight(fs, rootReal, Parts(requested), LINK_LIMIT)
    ensures var rootReal := RealpathSync(fs, rootDir, fuel).path;
            IsKernels(
              Spec(fs, rootDir, requested, fuel), Resolve(fs, rootReal, Parts(requested), LINK_LIMIT).value.path)
  {
    FoundIsReal(fs, rootDir, fuel);
    PartsArePlain(requested);
    var rootReal := RealpathSync(fs, rootDir, fuel).path;
    WalkFindsWhatTheKernelFinds(fs, rootReal, rootReal, Parts(requested), LINK_LIMIT, fuel);
  }

  /** The kernel, with this many link steps, ends at this path. */
  predicate EndsAt(fs: Tree, current: Path, parts: seq<Name>, kernel: nat, path: Path) {
    var r := Resolve(fs, current, parts, kernel);
    r.Some? && r.value.path == path
  }

  /**
   * Conversely, under the same condition a confined path that exists is what the
   * request resolves to, given enough link steps.
   */
  lemma {:induction false} ConfinedResolves(
      fs: Tree, rootReal: Path, current: Path, parts: seq<Name>, fuel: nat, path: Path)
    requires WellFormed(fs) && Real(fs, rootReal) && rootReal <= current && Grounded(fs, current) && PlainPath(parts)
    requires LINK_LIMIT <= fuel && Straight(fs, current, parts, LINK_LIMIT * |parts|)
    requires Walk(fs, rootReal, current, parts, fuel) == Confined(path) && path in fs
    ensures current in fs && EndsAt(fs, current, parts, LINK_LIMIT * |parts|, path)
    decreases |parts|, 1
  {
    if parts != [] {
      var part, rest := parts[0], parts[1..];
      assert parts == [part] + rest && ([part] + rest)[1..] == rest;
      GroundedLStat(fs, current, part);
      if current + [part] in fs && fs[current + [part]].Link? {
        ResolvesAtLink(fs, rootReal, current, part, rest, fuel, path);
      } else {
        StepKeepsGrounded(fs, rootReal, current, part, fuel);
        PlainPart(fs, current, part, rest);
        ConfinedResolves(fs, rootReal, current + [part], rest, fuel, path);
        OnePart(fs, current, part);
        ChainPart(fs, current, part, rest, current + [part], path);
      }
    }
  }

  lemma {:induction false} ResolvesAtLink(
      fs: Tree, rootReal: Path, current: Path, part: Name, rest: seq<Name>, fuel: nat, path: Path)
    requires WellFormed(fs) && Real(fs, rootReal) && Grounded(fs, current) && PlainName(part) && PlainPath(rest)
    requires LINK_LIMIT <= fuel && Straight(fs, current, [part] + rest, LINK_LIMIT * (|rest| + 1))
    requires current + [part] in fs && fs[current + [part]].Link?
    requires Walk(fs, rootReal, current, [part] + rest, fuel) == Confined(path) && path in fs
    ensures current in fs && EndsAt(fs, current, [part] + rest, LINK_LIMIT * (|rest| + 1), path)
    decreases |rest| + 1, 0
  {
    var n := LINK_LIMIT * |rest|;
    assert LINK_LIMIT * (|rest| + 1) == LINK_LIMIT + n;
    var target := LinkLeads(fs, rootReal, current, part, rest, n, fuel, path);
    ConfinedResolves(fs, rootReal, target, rest, fuel, path);
    ChainPart(fs, current, part, rest, target, path);
  }

  lemma LinkLeads(
      fs: Tree, rootReal: Path, current: Path, part: Name, rest: seq<Name>, n: nat, fuel: nat, path: Path)
      returns (target: Path)
    requires WellFormed(fs) && Grounded(fs, current) && PlainName(part) && LINK_LIMIT <= fuel
    requires current + [part] in fs && fs[current + [part]].Link?
    requires Straight(fs, current, [part] + rest, LINK_LIMIT + n)
    requires Walk(fs, rootReal, current, [part] + rest, fuel) == Confined(path)
    ensures current in fs && Grounded(fs, target) && rootReal <= target
    ensures Straight(fs, target, rest, n) && EndsAt(fs, current, [part], LINK_LIMIT, target)
    ensures Walk(fs, rootReal, target, rest, fuel) == Confined(path)
  {
    GroundedLStat(fs, current, part);
    WalkWentOn(fs, rootReal, current, part, rest, fuel, path);
    FoundResolves(fs, current, part, fuel);
    target := LinkDown(fs, current, part, rest, n, fuel);
  }

  lemma {:induction false} WalkWentOn(
      fs: Tree, rootReal: Path, current: Path, part: Name, rest: seq<Name>, fuel: nat, path: Path)
    requires LStat(fs, current + [part]).Some? && LStat(fs, current + [part]).value.Link?
    requires Walk(fs, rootReal, current, [part] + rest, fuel) == Confined(path)
    ensures RealpathSync(fs, current + [part], fuel).At?
    ensures var target := RealpathSync(fs, current + [part], fuel).path;
            rootReal <= target && Walk(fs, rootReal, target, rest, fuel) == Confined(path)
  {
    assert ([part] + rest)[1..] == rest;
  }

  /** A link that `realpathSync` gets past, the kernel can follow. */
  lemma {:induction false} FoundResolves(fs: Tree, current: Path, part: Name, fuel: nat)
    requires WellFormed(fs) && Grounded(fs, current) && PlainName(part)
    requires current + [part] in fs && fs[current + [part]].Link? && RealpathSync(fs, current + [part], fuel).At?
    ensures current in fs && Resolve(fs, current, [part], LINK_LIMIT).Some?
  {
    var next := current + [part];
    assert Init(next) == current;
    PlainIsNormal(next);
    NodeWalkFrom(fs, current, [part], fuel);
    OnePart(fs, current, part);
  }

  lemma {:induction false} StraightSplit(fs: Tree, current: Path, part: Name, rest: seq<Name>, n: nat)
    requires Resolve(fs, current, [part], LINK_LIMIT).Some? && Straight(fs, current, [part] + rest, LINK_LIMIT + n)
    ensures Straight(fs, current, [part], LINK_LIMIT)
    ensures Straight(fs, Resolve(fs, current, [part], LINK_LIMIT).value.path, rest, n)
  {
    var found := Resolve(fs, current, [part], LINK_LIMIT).value;
    ResolveMoreFuel(fs, current, [part], LINK_LIMIT, n);
    StraightAppend(fs, current, [part], rest, LINK_LIMIT + n);
    StraightLess(fs, current, [part], LINK_LIMIT + n, LINK_LIMIT);
    StraightLess(fs, found.path, rest, found.fuel + n, n);
  }

  lemma LinkDown(fs: Tree, current: Path, part: Name, rest: seq<Name>, n: nat, fuel: nat) returns (target: Path)
    requires WellFormed(fs) && Grounded(fs, current) && PlainName(part) && LINK_LIMIT <= fuel
    requires current + [part] in fs && fs[current + [part]].Link? && RealpathSync(fs, current + [part], fuel).At?
    requires Straight(fs, current, [part] + rest, LINK_LIMIT + n)
    ensures RealpathSync(fs, current + [part], fuel) == At(target) && Grounded(fs, target)
    ensures Straight(fs, target, rest, n) && EndsAt(fs, current, [part], LINK_LIMIT, target)
  {
    FoundResolves(fs, current, part, fuel);
    target := RealpathSync(fs, current + [part], fuel).path;
    FoundIsReal(fs, current + [part], fuel);
    RealIsGrounded(fs, target);
    KernelAgreesAt(fs, current, part, rest, n, fuel, target);
  }

  lemma KernelAgreesAt(fs: Tree, current: Path, part: Name, rest: seq<Name>, n: nat, fuel: nat, target: Path)
    requires WellFormed(fs) && Real(fs, current) && PlainName(part) && LINK_LIMIT <= fuel
    requires Resolve(fs, current, [part], LINK_LIMIT).Some? && RealpathSync(fs, current + [part], fuel) == At(target)
    requires Straight(fs, current, [part] + rest, LINK_LIMIT + n)
    ensures Straight(fs, target, rest, n) && EndsAt(fs, current, [part], LINK_LIMIT, target)
  {
    StraightSplit(fs, current, part, rest, n);
    LinkIsKernels(fs, current, part, LINK_LIMIT, fuel);
  }

  lemma {:induction false} PlainPart(fs: Tree, current: Path, part: Name, rest: seq<Name>)
    requires WellFormed(fs) && PlainName(part) && Straight(fs, current, [part] + rest, LINK_LIMIT * (|rest| + 1))
    requires current + [part] in fs ==> !fs[current + [part]].Link?
    ensures Straight(fs, current + [part], rest, LINK_LIMIT * |rest|)
  {
    var next := current + [part];
    assert Init(next) == current && ([part] + rest)[1..] == rest;
    if next in fs {
      StraightLess(fs, next, rest, LINK_LIMIT * (|rest| + 1), LINK_LIMIT * |rest|);
    }
  }

  /** Resolving one more part from a directory is the kernel's resolution of the longer path. */
  lemma {:induction false} OnePart(fs: Tree, current: Path, part: Name)
    requires WellFormed(fs) && Grounded(fs, current) && PlainName(part) && current + [part] in fs
    ensures var r := Resolve(fs, current, [part], LINK_LIMIT);
            && KernelPath(fs, current + [part]) == (if r.Some? then Some(r.value.path) else None)
            && (!fs[current + [part]].Link? ==> r == Some(Found(current + [part], LINK_LIMIT)))
  {
    var next := current + [part];
    assert Init(next) == current && current in fs;
    assert current[..0] == [] && current[0..] == current;
    GroundedResolves(fs, current, 0, LINK_LIMIT);
    ResolveAppend(fs, [], current, [part], LINK_LIMIT);
  }

  lemma ChainPart(fs: Tree, current: Path, part: Name, rest: seq<Name>, middle: Path, path: Path)
    requires EndsAt(fs, current, [part], LINK_LIMIT, middle) && EndsAt(fs, middle, rest, LINK_LIMIT * |rest|, path)
    ensures EndsAt(fs, current, [part] + rest, LINK_LIMIT * (|rest| + 1), path)
  {
    var first := Resolve(fs, current, [part], LINK_LIMIT).value;
    var last := Resolve(fs, middle, rest, LINK_LIMIT * |rest|).value;
    ResolveChain(fs, current, [part], rest, LINK_LIMIT, LINK_LIMIT * |rest|, first, last);
  }
}
