/// A tree in which a link's target has a `..` behind the name of another link. The
/// kernel follows that name first, `realpathSync` cancels it.
module MisleadingLinks {
  import opened Prelude
  import opened Filesystem
  import opened Confinement
  import Archive

  const THROUGH: Target := Target(false, ["near", "..", "x"])

  /**
   * `s/near` leads to the directory `s/far/deep`. For the kernel `near/../x` is
   * therefore `s/far/x`; lexically it is `s/x`. `s/p` names only `s/m`.
   */
  function Example(x: Node): Tree {
    map[
      [] := Dir,
      ["s"] := Dir,
      ["s", "far"] := Dir,
      ["s", "far", "deep"] := Dir,
      ["s", "far", "x"] := File([1]),
      ["s", "x"] := x,
      ["s", "near"] := Link(Target(false, ["far", "deep"])),
      ["s", "m"] := Link(THROUGH),
      ["s", "p"] := Link(Target(false, ["m"]))
    ]
  }

  /** Another file stands where the lexical path leads. */
  function Misleading(): Tree {
    Example(File([2]))
  }

  /** The link itself stands there. */
  function Circular(): Tree {
    Example(Link(THROUGH))
  }

  lemma ExampleIsPlain(x: Node)
    ensures forall p | p in Example(x) :: PlainPath(p)
  {
  }

  lemma ExampleIsWellFormed(x: Node)
    ensures WellFormed(Example(x))
  {
    ExampleIsPlain(x);
    var fs := Example(x);
    forall p | p in fs && p != [] ensures Init(p) in fs && fs[Init(p)].Dir? {
      assert Init(p) == if |p| == 1 then [] else if |p| == 2 then ["s"] else ["s", "far"];
    }
  }

  // ----- the kernel -----

  lemma {:induction false} Step(fs: Tree, base: Path, name: Name, next: Path, rest: seq<Name>, fuel: nat)
    requires next == base + [name] && base in fs && fs[base].Dir? && IsName(name) && next in fs && !fs[next].Link?
    ensures Resolve(fs, base, [name] + rest, fuel) == Resolve(fs, next, rest, fuel)
  {
    assert ([name] + rest)[1..] == rest;
  }

  lemma {:induction false} Follow(
      fs: Tree, base: Path, name: Name, next: Path, rest: seq<Name>, fuel: nat, comps: seq<Name>)
    requires next == base + [name] && base in fs && fs[base].Dir? && IsName(name) && fuel > 0
    requires next in fs && fs[next] == Link(Target(false, comps))
    ensures Resolve(fs, base, [name] + rest, fuel) == Resolve(fs, base, comps + rest, fuel - 1)
  {
    assert ([name] + rest)[1..] == rest;
  }

  lemma {:induction false} ThroughDeep(x: Node, fuel: nat)
    ensures Resolve(Example(x), ["s"], ["far", "deep"] + ["..", "x"], fuel) == Some(Found(["s", "far", "x"], fuel))
  {
    var fs := Example(x);
    Step(fs, ["s"], "far", ["s", "far"], ["deep", "..", "x"], fuel);
    Step(fs, ["s", "far"], "deep", ["s", "far", "deep"], ["..", "x"], fuel);
    assert Init(["s", "far", "deep"]) == ["s", "far"] && ["..", "x"][1..] == ["x"];
    assert ["far", "deep"] + ["..", "x"] == ["far"] + ["deep", "..", "x"];
    assert ["deep"] + ["..", "x"] == ["deep", "..", "x"];
    Step(fs, ["s", "far"], "x", ["s", "far", "x"], [], fuel);
    assert ["x"] + [] == ["x"];
    assert Resolve(fs, ["s", "far", "deep"], ["..", "x"], fuel) == Resolve(fs, ["s", "far"], ["x"], fuel);
  }

  lemma {:induction false} ThroughNear(x: Node, fuel: nat)
    requires fuel > 0
    ensures Resolve(Example(x), ["s"], ["near", "..", "x"], fuel) == Some(Found(["s", "far", "x"], fuel - 1))
  {
    Follow(Example(x), ["s"], "near", ["s", "near"], ["..", "x"], fuel, ["far", "deep"]);
    ThroughDeep(x, fuel - 1);
    assert ["near"] + ["..", "x"] == ["near", "..", "x"];
  }

  /** The kernel's path of a link with that target. */
  lemma {:induction false} KernelOpensFar(x: Node, name: Name, fuel: nat)
    requires ["s", name] in Example(x) && Example(x)[["s", name]] == Link(THROUGH) && IsName(name) && fuel > 1
    ensures Resolve(Example(x), ["s"], [name], fuel) == Some(Found(["s", "far", "x"], fuel - 2))
    ensures fuel == LINK_LIMIT ==> KernelPath(Example(x), ["s", name]) == Some(["s", "far", "x"])
  {
    var fs := Example(x);
    Step(fs, [], "s", ["s"], [name], fuel);
    Follow(fs, ["s"], name, ["s", name], [], fuel, THROUGH.comps);
    ThroughNear(x, fuel - 1);
    assert ["s"] + [name] == ["s", name] && [name] + [] == [name] && THROUGH.comps + [] == ["near", "..", "x"];
  }

  lemma KernelOpensFarThroughP()
    ensures KernelPath(Misleading(), ["s", "p"]) == Some(["s", "far", "x"])
  {
    var fs := Misleading();
    Step(fs, [], "s", ["s"], ["p"], LINK_LIMIT);
    Follow(fs, ["s"], "p", ["s", "p"], [], LINK_LIMIT, ["m"]);
    KernelOpensFar(File([2]), "m", LINK_LIMIT - 1);
    assert ["s"] + ["p"] == ["s", "p"] && ["p"] + [] == ["p"] && ["m"] + [] == ["m"];
  }

  // ----- `realpathSync` -----

  lemma NormalizeThree()
    ensures Normalize(["s"], ["near", "..", "x"]) == ["s", "x"]
  {
    assert ["near", "..", "x"][1..] == ["..", "x"] && ["..", "x"][1..] == ["x"] && ["x"][1..] == [];
    assert Init(["s"] + ["near"]) == ["s"];
  }

  /** Two components, where the second is not followed yet. */
  lemma {:induction false} NodeInS(x: Node, name: Name, fuel: nat)
    requires PlainName(name)
    ensures NodeWalk(Example(x), [], ["s", name], fuel) == NodeWalk(Example(x), ["s"], [name], fuel)
    ensures RealpathSync(Example(x), ["s", name], fuel) == NodeWalk(Example(x), ["s"], [name], fuel)
  {
    PlainIsNormal(["s", name]);
    assert [] + ["s"] == ["s"] && ["s"] + [name] == ["s", name];
    NodeStep(Example(x), [], "s", [name], fuel);
  }

  /** It starts again where the target leads lexically. */
  lemma NodeGoesToX(x: Node, name: Name, fuel: nat)
    requires ["s", name] in Example(x) && Example(x)[["s", name]] == Link(THROUGH) && PlainName(name)
    ensures RealpathSync(Example(x), ["s", name], fuel)
         == if fuel == 0 then Endless else RealpathSync(Example(x), ["s", "x"], fuel - 1)
  {
    NodeInS(x, name, fuel);
    KernelOpensFar(x, name, LINK_LIMIT);
    NormalizeThree();
    PlainIsNormal(["s", "x"]);
    assert ["s"] + [name] == ["s", name] && ["s", "x"] + [name][1..] == ["s", "x"];
  }

  lemma XIsFile(fuel: nat)
    ensures RealpathSync(Misleading(), ["s", "x"], fuel) == At(["s", "x"])
  {
    NodeInS(File([2]), "x", fuel);
    assert ["s"] + ["x"] == ["s", "x"] && ["x"] + [] == ["x"];
    NodeStep(Misleading(), ["s"], "x", [], fuel);
  }

  lemma {:induction false} XIsEndless(fuel: nat)
    ensures RealpathSync(Circular(), ["s", "x"], fuel) == Endless
  {
    NodeGoesToX(Link(THROUGH), "x", fuel);
    if fuel > 0 {
      XIsEndless(fuel - 1);
    }
  }

  // ----- the request `m` or `x` in the root `s` -----

  lemma RootIsS(x: Node, fuel: nat)
    ensures RealpathSync(Example(x), ["s"], fuel) == At(["s"])
  {
    PlainIsNormal(["s"]);
    assert [] + ["s"] == ["s"] && ["s"] + [] == ["s"];
    NodeStep(Example(x), [], "s", [], fuel);
  }

  lemma OneLetter(name: string)
    requires |name| == 1 && name != "." && !IsSeparator(name[0]) && name[0] != '\0'
    ensures Parts(name) == [name] && '\0' !in name && ".." != name
  {
    assert "" + [name[0]] == name && name[1..] == "";
    assert PartsFrom(name[1..], name) == Kept(name);
  }

  lemma SpecInS(x: Node, name: string, fuel: nat)
    requires |name| == 1 && PlainName(name) && !IsSeparator(name[0]) && name[0] != '\0'
    requires ["s", name] in Example(x) && Example(x)[["s", name]].Link?
    ensures Spec(Example(x), ["s"], name, fuel) ==
            match RealpathSync(Example(x), ["s", name], fuel)
            case At(target) => if ["s"] <= target then Confined(target) else Refused(LinkEscapes(name))
            case Missing => Refused(BrokenLink(name))
            case Endless => NeverReturns
  {
    var fs := Example(x);
    RootIsS(x, fuel);
    OneLetter(name);
    ExampleIsWellFormed(x);
    SIsGrounded(x);
    GroundedLStat(fs, ["s"], name);
    assert ["s"] + [name] == ["s", name] && [name][1..] == [];
  }

  lemma SIsGrounded(x: Node)
    ensures Grounded(Example(x), ["s"])
  {
    forall k | 0 <= k <= 1 ensures ["s"][..k] in Example(x) ==> !Example(x)[["s"][..k]].Link? {
      assert ["s"][..k] == if k == 0 then [] else ["s"];
    }
  }

  ghost predicate Reads(fs: Tree, p: Path, content: Content) {
    p in fs && fs[p] == File(content)
  }

  lemma Contents()
    ensures Reads(Misleading(), ["s", "far", "x"], [1]) && Reads(Misleading(), ["s", "x"], [2])
    ensures ["s", "m"] in Misleading() && Misleading()[["s", "m"]] == Link(THROUGH)
    ensures ["s", "p"] in Misleading() && Misleading()[["s", "p"]] == Link(Target(false, ["m"]))
  {
  }

  lemma MGoesToX(fuel: nat)
    requires fuel > 0
    ensures RealpathSync(Misleading(), ["s", "m"], fuel) == At(["s", "x"])
  {
    Contents();
    NodeGoesToX(File([2]), "m", fuel);
    XIsFile(fuel - 1);
  }

  /** The path confined is a file inside the root, and not the one the kernel opens for the request. */
  lemma ConfinesAnotherFile(fuel: nat)
    requires fuel > 0
    ensures WellFormed(Misleading()) && KernelPath(Misleading(), ["s", "m"]) == Some(["s", "far", "x"])
    ensures Spec(Misleading(), ["s"], "m", fuel) == Confined(["s", "x"])
    ensures Reads(Misleading(), ["s", "far", "x"], [1]) && Reads(Misleading(), ["s", "x"], [2])
  {
    ExampleIsWellFormed(File([2]));
    Contents();
    KernelOpensFar(File([2]), "m", LINK_LIMIT);
    MGoesToX(fuel);
    SpecInS(File([2]), "m", fuel);
  }

  /** A request the kernel can open, and for which the confinement does not return. */
  lemma ConfinementNeedNotReturn(fuel: nat)
    ensures WellFormed(Circular()) && KernelPath(Circular(), ["s", "x"]) == Some(["s", "far", "x"])
    ensures Spec(Circular(), ["s"], "x", fuel) == NeverReturns
    ensures !Archive.Finishes(Circular(), ["s"], fuel)
  {
    ExampleIsWellFormed(Link(THROUGH));
    KernelOpensFar(Link(THROUGH), "x", LINK_LIMIT);
    XIsEndless(fuel);
    SpecInS(Link(THROUGH), "x", fuel);
    LeadsToX(Link(THROUGH), "x", fuel);
    assert Archive.IsLinkBelow(Circular(), ["s"], ["s", "x"]);
  }

  // ----- the links of an archive -----

  lemma LeadsToX(x: Node, name: Name, fuel: nat)
    requires ["s", name] in Example(x) && Example(x)[["s", name]] == Link(THROUGH)
    ensures Archive.Leads(Example(x), ["s", name], fuel) == RealpathSync(Example(x), ["s", "x"], fuel)
  {
    assert Init(["s", name]) == ["s"];
    NormalizeThree();
  }

  /**
   * Both links name the file with content 1, the second by way of the first; content
   * 2 is what they are replaced by.
   */
  lemma ParentBehindNameMisleads(fuel: nat)
    requires fuel > 0
    ensures KernelPath(Misleading(), ["s", "m"]) == KernelPath(Misleading(), ["s", "p"]) == Some(["s", "far", "x"])
    ensures Reads(Misleading(), ["s", "far", "x"], [1])
    ensures Reads(Archive.Materialized(Misleading(), ["s"], fuel), ["s", "m"], [2])
    ensures Reads(Archive.Materialized(Misleading(), ["s"], fuel), ["s", "p"], [2])
  {
    var fs := Misleading();
    ConfinesAnotherFile(fuel);
    KernelOpensFarThroughP();
    LeadsToX(File([2]), "m", fuel);
    XIsFile(fuel);
    LeadsFromP(fuel);
    Archive.LinkBecomesFileIff(fs, ["s"], ["s", "m"], fuel);
    Archive.LinkBecomesFileIff(fs, ["s"], ["s", "p"], fuel);
  }

  lemma LeadsFromP(fuel: nat)
    requires fuel > 0
    ensures Archive.Leads(Misleading(), ["s", "p"], fuel) == At(["s", "x"])
  {
    assert Init(["s", "p"]) == ["s"];
    assert ["m"][1..] == [] && ["s"] + ["m"] == ["s", "m"];
    assert Normalize(["s"], ["m"]) == ["s", "m"];
    MGoesToX(fuel);
    PlainIsNormal(["s", "m"]);
  }
}
