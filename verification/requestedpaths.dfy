/// What a requested path means: its segments, what is refused, and where a request
/// for plain names ends.
module RequestedPaths {
  import opened Prelude
  import opened Filesystem
  import opened Confinement

  /** A stretch of text between separators; it may be empty. */
  predicate IsSegment(s: string) {
    forall c | c in s :: c != '/' && c != '\\'
  }

  predicate IsGap(s: string) {
    s != "" && forall c | c in s :: c == '/' || c == '\\'
  }

  /** The segments in order, with any separators between them. */
  predicate IsCut(segments: seq<string>, gaps: seq<string>) {
    && |segments| == |gaps| + 1
    && (forall i | 0 <= i < |segments| :: IsSegment(segments[i]))
    && forall i | 0 <= i < |gaps| :: IsGap(gaps[i])
  }

  function Joined(segments: seq<string>, gaps: seq<string>): string
    requires |segments| == |gaps| + 1
  {
    if gaps == [] then segments[0] else segments[0] + (gaps[0] + Joined(segments[1..], gaps[1..]))
  }

  /** The segments that name something. */
  function Named(segments: seq<string>): seq<string> {
    if segments == [] then []
    else (if segments[0] == "" || segments[0] == "." then [] else [segments[0]]) + Named(segments[1..])
  }

  lemma {:induction false} PartsOfSegment(token: string, segment: string, rest: string)
    requires IsSegment(segment)
    ensures PartsFrom(segment + rest, token) == PartsFrom(rest, token + segment)
    decreases |segment|
  {
    if segment == "" {
      assert segment + rest == rest && token + segment == token;
    } else {
      var s := segment + rest;
      assert s[0] == segment[0] && s[0] in segment && s[1..] == segment[1..] + rest;
      assert forall c | c in segment[1..] :: c in segment;
      PartsOfSegment(token + [segment[0]], segment[1..], rest);
      assert token + [segment[0]] + segment[1..] == token + segment;
    }
  }

  lemma {:induction false} PartsOfGap(token: string, gap: string, rest: string)
    requires IsGap(gap)
    ensures PartsFrom(gap + rest, token) == Kept(token) + PartsFrom(rest, "")
    decreases |gap|
  {
    var s := gap + rest;
    assert s[0] == gap[0] && s[0] in gap && s[1..] == gap[1..] + rest;
    if |gap| > 1 {
      assert forall c | c in gap[1..] :: c in gap;
      PartsOfGap("", gap[1..], rest);
      assert Kept("") + PartsFrom(rest, "") == PartsFrom(rest, "");
    } else {
      assert gap[1..] + rest == rest;
    }
  }

  lemma PartsOfOne(segment: string)
    requires IsSegment(segment)
    ensures Parts(segment) == Named([segment])
  {
    PartsOfSegment("", segment, "");
    assert segment + "" == segment && "" + segment == segment;
    assert [segment][1..] == [] && Kept(segment) + [] == Kept(segment);
  }

  /**
   * Whatever separators stand between, before and behind the segments, the parts of the
   * text are those that are neither empty nor `.`, in order.
   */
  lemma {:induction false} PartsOfJoined(segments: seq<string>, gaps: seq<string>)
    requires IsCut(segments, gaps)
    ensures Parts(Joined(segments, gaps)) == Named(segments)
    decreases |gaps|
  {
    if gaps == [] {
      PartsOfOne(segments[0]);
      assert segments == [segments[0]];
    } else {
      var rest := Joined(segments[1..], gaps[1..]);
      PartsOfSegment("", segments[0], gaps[0] + rest);
      assert "" + segments[0] == segments[0];
      PartsOfGap(segments[0], gaps[0], rest);
      PartsOfJoined(segments[1..], gaps[1..]);
    }
  }

  /** Every text is made of segments and separators. */
  lemma {:induction false} EveryTextIsCut(s: string) returns (segments: seq<string>, gaps: seq<string>)
    ensures IsCut(segments, gaps) && Joined(segments, gaps) == s
  {
    if s == "" {
      segments, gaps := [""], [];
    } else {
      var later, between := EveryTextIsCut(s[1..]);
      if IsSeparator(s[0]) {
        segments, gaps := [""] + later, [[s[0]]] + between;
        assert segments[1..] == later && gaps[1..] == between;
      } else {
        segments, gaps := [[s[0]] + later[0]] + later[1..], between;
        LongerFirst(s[0], later, between);
      }
      assert s == [s[0]] + s[1..];
    }
  }

  lemma {:induction false} LongerFirst(c: char, segments: seq<string>, gaps: seq<string>)
    requires IsCut(segments, gaps) && !IsSeparator(c)
    ensures var longer := [[c] + segments[0]] + segments[1..];
            IsCut(longer, gaps) && Joined(longer, gaps) == [c] + Joined(segments, gaps)
  {
    var longer := [[c] + segments[0]] + segments[1..];
    assert longer[1..] == segments[1..];
    forall i | 0 <= i < |longer| ensures IsSegment(longer[i]) {
      assert i > 0 ==> longer[i] == segments[i];
    }
    if gaps != [] {
      ConcatAssociates([c], segments[0], gaps[0] + Joined(segments[1..], gaps[1..]));
    }
  }

  lemma {:induction false} NamedHas(segments: seq<string>, n: string)
    requires n != "" && n != "."
    ensures n in Named(segments) <==> n in segments
  {
    if segments != [] {
      NamedHas(segments[1..], n);
      assert segments == [segments[0]] + segments[1..];
    }
  }

  /** A request is refused for a parent segment if and only if one of its segments is `..`. */
  lemma {:induction false} ParentSegmentIff(
      fs: Tree, rootDir: seq<Name>, segments: seq<string>, gaps: seq<string>, fuel: nat)
    requires IsCut(segments, gaps) && '\0' !in Joined(segments, gaps) && RealpathSync(fs, rootDir, fuel).At?
    requires WellFormed(fs)
    ensures Spec(fs, rootDir, Joined(segments, gaps), fuel) == Refused(ParentSegment) <==> ".." in segments
  {
    PartsOfJoined(segments, gaps);
    NamedHas(segments, "..");
    var root := RealpathSync(fs, rootDir, fuel).path;
    WalkRefusesLinksOnly(fs, root, root, Named(segments), fuel);
  }

  /** The walk itself refuses nothing but links. */
  lemma {:induction false} WalkRefusesLinksOnly(fs: Tree, rootReal: Path, current: Path, parts: seq<Name>, fuel: nat)
    ensures var r := Walk(fs, rootReal, current, parts, fuel);
            r.Refused? ==> r.why.BrokenLink? || r.why.LinkEscapes?
    decreases |parts|
  {
    if parts != [] {
      var next := current + [parts[0]];
      match LStat(fs, next)
      case Some(Link(_)) =>
        var target := RealpathSync(fs, next, fuel);
        if target.At? && rootReal <= target.path {
          WalkRefusesLinksOnly(fs, rootReal, target.path, parts[1..], fuel);
        }
      case _ => WalkRefusesLinksOnly(fs, rootReal, next, parts[1..], fuel);
    }
  }

  /** No component behind the root is a link. */
  predicate NoLinkBelow(fs: Tree, root: Path, names: seq<Name>) {
    forall k | 0 < k <= |names| && root + names[..k] in fs :: !fs[root + names[..k]].Link?
  }

  lemma NoLinkFurther(fs: Tree, root: Path, n: Name, rest: seq<Name>)
    requires NoLinkBelow(fs, root, [n] + rest)
    ensures root + [n] in fs ==> !fs[root + [n]].Link?
    ensures NoLinkBelow(fs, root + [n], rest)
  {
    var names := [n] + rest;
    assert names[..1] == [n];
    forall k | 0 < k <= |rest| && root + [n] + rest[..k] in fs ensures !fs[root + [n] + rest[..k]].Link? {
      assert root + names[..k + 1] == root + [n] + rest[..k];
    }
  }

  lemma {:induction false} WalkOn(fs: Tree, rootReal: Path, current: Path, n: Name, rest: seq<Name>, fuel: nat)
    requires WellFormed(fs) && Grounded(fs, current) && PlainName(n)
    requires current + [n] in fs ==> !fs[current + [n]].Link?
    ensures Walk(fs, rootReal, current, [n] + rest, fuel) == Walk(fs, rootReal, current + [n], rest, fuel)
    ensures Grounded(fs, current + [n])
  {
    GroundedLStat(fs, current, n);
    GroundedSnoc(fs, current, n);
    assert ([n] + rest)[1..] == rest;
  }

  lemma {:induction false} WalkWithoutLinks(fs: Tree, rootReal: Path, current: Path, names: seq<Name>, fuel: nat)
    requires WellFormed(fs) && Grounded(fs, current) && PlainPath(names) && NoLinkBelow(fs, current, names)
    ensures Walk(fs, rootReal, current, names, fuel) == Confined(current + names)
    decreases |names|
  {
    if names == [] {
      assert current + names == current;
    } else {
      var n, rest := names[0], names[1..];
      assert names == [n] + rest;
      NoLinkFurther(fs, current, n, rest);
      WalkOn(fs, rootReal, current, n, rest, fuel);
      WalkWithoutLinks(fs, rootReal, current + [n], rest, fuel);
      ConcatAssociates(current, [n], rest);
    }
  }

  /**
   * Where no link lies on the way, a request is confined to the root followed by
   * exactly the segments that name something, whether they exist or not.
   */
  lemma {:induction false} PlainRequestIsConfined(
      fs: Tree, rootDir: seq<Name>, segments: seq<string>, gaps: seq<string>, fuel: nat)
    requires WellFormed(fs) && IsCut(segments, gaps) && '\0' !in Joined(segments, gaps) && ".." !in segments
    requires RealpathSync(fs, rootDir, fuel).At?
    requires NoLinkBelow(fs, RealpathSync(fs, rootDir, fuel).path, Named(segments))
    ensures Spec(fs, rootDir, Joined(segments, gaps), fuel)
         == Confined(RealpathSync(fs, rootDir, fuel).path + Named(segments))
  {
    var root := RealpathSync(fs, rootDir, fuel).path;
    PartsOfJoined(segments, gaps);
    NamedHas(segments, "..");
    PartsArePlain(Joined(segments, gaps));
    FoundIsReal(fs, rootDir, fuel);
    RealIsGrounded(fs, root);
    WalkWithoutLinks(fs, root, root, Named(segments), fuel);
  }
}
