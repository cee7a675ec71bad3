/// `server.properties`: reading settings out of a file text and writing changed
/// values back without disturbing anything else.
module Properties {
  import opened Prelude
  import opened Text

  /** One `key=value` setting, in the order it stands in the file. */
  datatype Property = Property(key: string, value: string)

  // ----- the two regular expressions -----

  /** The characters `.` does not match. */
  predicate IsTerminator(c: char) {
    c == '\n' || c == '\r' || c == '\U{2028}' || c == '\U{2029}'
  }

  predicate IsKeyChar(c: char) {
    'A' <= c <= 'Z' || 'a' <= c <= 'z' || '0' <= c <= '9' || c == '.' || c == '_' || c == '-'
  }

  predicate SingleLine(s: string) {
    forall c | c in s :: !IsTerminator(c)
  }

  predicate IsKey(s: string) {
    s != [] && forall c | c in s :: IsKeyChar(c)
  }

  /** The longest run of key characters in front. */
  function LeadingKey(s: string): (k: string)
    ensures k <= s && forall c | c in k :: IsKeyChar(c)
  {
    if s != [] && IsKeyChar(s[0]) then [s[0]] + LeadingKey(s[1..]) else []
  }

  /** `/^\s*([A-Za-z0-9._-]+)\s*=/`: the key of a line, and what follows its `=`. */
  function MatchKey(line: string): Option<(string, string)> {
    var body := SkipSpaces(line);
    var key := LeadingKey(body);
    var rest := SkipSpaces(body[|key|..]);
    if key == [] || rest == [] || rest[0] != '=' then None else Some((key, rest[1..]))
  }

  /** `/^\s*([A-Za-z0-9._-]+)\s*=\s*(.*)$/`: the setting a line holds, if any. */
  function MatchSetting(line: string): Option<Property> {
    match MatchKey(line)
    case None => None
    case Some((key, rest)) =>
      var value := SkipSpaces(rest);
      if SingleLine(value) then Some(Property(key, value)) else None
  }

  // ----- parsing -----

  /** The zero or one settings of a line. */
  function Found(line: string): (ps: seq<Property>)
    ensures |ps| <= 1
  {
    match MatchSetting(line) case None => [] case Some(p) => [p]
  }

  function Settings(lines: seq<string>): seq<Property> {
    if lines == [] then []
    else Found(lines[0]) + Settings(lines[1..])
  }

  method ParseProperties(text: string) returns (properties: seq<Property>)
    ensures properties == Settings(SplitLines(text))
  {
    properties := [];
    var lines := SplitLines(text);
    var i := 0;
    while i < |lines|
      invariant 0 <= i <= |lines|
      invariant properties + Settings(lines[i..]) == Settings(lines)
    {
      assert lines[i..][1..] == lines[i + 1..];
      ConcatAssociates(properties, Found(lines[i]), Settings(lines[i + 1..]));
      match MatchSetting(lines[i]) {
        case None => assert properties == properties + Found(lines[i]);
        case Some(p) => properties := properties + [p];
      }
      i := i + 1;
    }
    assert lines[i..] == [];
  }

  // ----- applying changes -----

  /** The changes not yet written, in the order `Object.entries` lists them. */
  type Changes = seq<Property>

  predicate DistinctKeys(changes: Changes) {
    forall i, j | 0 <= i < j < |changes| :: changes[i].key != changes[j].key
  }

  predicate Has(changes: Changes, key: string) {
    exists i | 0 <= i < |changes| :: changes[i].key == key
  }

  function Get(changes: Changes, key: string): (value: string)
    requires Has(changes, key)
    ensures exists i | 0 <= i < |changes| :: changes[i] == Property(key, value)
  {
    if changes[0].key == key then
      assert changes[0] == Property(key, changes[0].value);
      changes[0].value
    else
      assert forall i | 0 <= i < |changes| - 1 :: changes[1..][i] == changes[i + 1];
      Get(changes[1..], key)
  }

  function Without(changes: Changes, key: string): (r: Changes)
    ensures forall p | p in r :: p in changes && p.key != key
  {
    if changes == [] then []
    else if changes[0].key == key then Without(changes[1..], key)
    else [changes[0]] + Without(changes[1..], key)
  }

  function SettingLine(p: Property): string {
    p.key + "=" + p.value
  }

  function SettingLines(changes: Changes): (lines: seq<string>)
    ensures |lines| == |changes|
    ensures forall i | 0 <= i < |lines| :: lines[i] == SettingLine(changes[i])
  {
    seq(|changes|, i requires 0 <= i < |changes| => SettingLine(changes[i]))
  }

  /** A line holds a key that is still to be changed. */
  predicate Replaces(line: string, remaining: Changes) {
    match MatchKey(line)
    case None => false
    case Some((key, _)) => Has(remaining, key)
  }

  /** What a line becomes, and which changes are left after it. */
  function RewriteLine(line: string, remaining: Changes): (string, Changes) {
    if Replaces(line, remaining) then
      var key := MatchKey(line).value.0;
      (SettingLine(Property(key, Get(remaining, key))), Without(remaining, key))
    else (line, remaining)
  }

  function Rewrite(lines: seq<string>, remaining: Changes): seq<string> {
    if lines == [] then SettingLines(remaining)
    else
      var (line, left) := RewriteLine(lines[0], remaining);
      [line] + Rewrite(lines[1..], left)
  }

  /** `lines.join("\n")` for at least one line. */
  function Join(lines: seq<string>): string
    requires lines != []
  {
    if |lines| == 1 then lines[0] else Join(Init(lines)) + ['\n'] + Last(lines)
  }

  lemma {:induction false} RewriteIsNonempty(lines: seq<string>, remaining: Changes)
    requires lines != []
    ensures Rewrite(lines, remaining) != []
  {
  }

  function Apply(text: string, changes: Changes): string {
    RewriteIsNonempty(SplitLines(text), changes);
    Join(Rewrite(SplitLines(text), changes))
  }

  method ApplyPropertyChanges(text: string, changes: Changes) returns (r: string)
    requires DistinctKeys(changes)
    ensures r == Apply(text, changes)
  {
    var lines := SplitLines(text);
    var remaining := changes;
    var out: seq<string> := [];
    var i := 0;
    while i < |lines|
      invariant 0 <= i <= |lines|
      invariant out + Rewrite(lines[i..], remaining) == Rewrite(lines, changes)
    {
      RewriteNext(lines, i, remaining, out);
      if Replaces(lines[i], remaining) {
        var key := MatchKey(lines[i]).value.0;
        out := out + [SettingLine(Property(key, Get(remaining, key)))];
        remaining := Without(remaining, key);
      } else {
        out := out + [lines[i]];
      }
      i := i + 1;
    }
    assert lines[i..] == [];
    out := AppendMissing(out, remaining);
    RewriteIsNonempty(lines, changes);
    r := Join(out);
  }

  lemma {:induction false} RewriteNext(lines: seq<string>, i: nat, remaining: Changes, out: seq<string>)
    requires i < |lines|
    ensures var (line, left) := RewriteLine(lines[i], remaining);
            out + Rewrite(lines[i..], remaining) == out + [line] + Rewrite(lines[i + 1..], left)
  {
    var (line, left) := RewriteLine(lines[i], remaining);
    assert lines[i..][1..] == lines[i + 1..];
    ConcatAssociates(out, [line], Rewrite(lines[i + 1..], left));
  }

  /** The keys the file never had go at its end. */
  method AppendMissing(kept: seq<string>, remaining: Changes) returns (out: seq<string>)
    ensures out == kept + SettingLines(remaining)
  {
    out := kept;
    for i := 0 to |remaining|
      invariant out == kept + SettingLines(remaining)[..i]
    {
      out := out + [SettingLine(remaining[i])];
    }
    assert SettingLines(remaining)[..|remaining|] == SettingLines(remaining);
  }

  // ----- what a written line means -----

  predicate GoodValue(v: string) {
    SingleLine(v) && (v == [] || !IsSpace(v[0]))
  }

  lemma {:induction false} LeadingKeyStops(key: string, rest: string)
    requires forall c | c in key :: IsKeyChar(c)
    requires rest == [] || !IsKeyChar(rest[0])
    ensures LeadingKey(key + rest) == key
  {
    if key == [] {
      assert key + rest == rest;
    } else {
      assert key[0] in key;
      LeadingKeyStops(key[1..], rest);
      assert (key + rest)[1..] == key[1..] + rest;
    }
  }

  lemma SettingLineMatches(p: Property)
    requires IsKey(p.key)
    ensures MatchKey(SettingLine(p)) == Some((p.key, p.value))
  {
    var line, rest := SettingLine(p), ['='] + p.value;
    ConcatAssociates(p.key, ['='], p.value);
    assert line == p.key + rest;
    assert line[0] in p.key;
    LeadingKeyStops(p.key, rest);
    assert line[|p.key|..] == rest && SkipSpaces(rest) == rest && rest[1..] == p.value;
  }

  /**
   * A value survives being written and read back exactly when it is one line and
   * does not start with white space.
   */
  lemma ValueRoundTripsIff(p: Property)
    requires IsKey(p.key)
    ensures MatchSetting(SettingLine(p)) == Some(p) <==> GoodValue(p.value)
  {
    SettingLineMatches(p);
  }

  // ----- joining and splitting again -----

  function StripAll(lines: seq<string>): (r: seq<string>)
    ensures |r| == |lines|
  {
    seq(|lines|, i requires 0 <= i < |lines| => if i < |lines| - 1 then StripCr(lines[i]) else lines[i])
  }

  lemma {:induction false} SplitTwoLines(x: string, y: string)
    requires NoNewline(x) && NoNewline(y)
    ensures SplitLines(x + (['\n'] + y)) == [StripCr(x), y]
  {
    var a := x + ['\n'];
    assert Init(a) == x && Last(a) == '\n';
    SplitOneLine(x);
    var parts := SplitLines(a);
    assert parts == SplitStep([x], '\n');
    assert Init([x]) == [];
    assert parts == [StripCr(x), ""];
    SplitAppend(a, y);
    assert "" + y == y;
    SplitOneLine(y);
    assert Init(parts) == [StripCr(x)];
    ConcatAssociates(x, ['\n'], y);
  }

  lemma StripAllSnoc(front: seq<string>, last: string)
    requires front != []
    ensures StripAll(front + [last]) == Init(StripAll(front)) + [StripCr(Last(front)), last]
  {
  }

  lemma {:induction false} JoinSnoc(front: seq<string>, last: string)
    requires front != []
    ensures Join(front + [last]) == Join(front) + (['\n'] + last)
  {
    assert Init(front + [last]) == front;
    ConcatAssociates(Join(front), ['\n'], last);
  }

  lemma {:induction false} SplitJoined(lines: seq<string>)
    requires lines != [] && forall l | l in lines :: NoNewline(l)
    ensures SplitLines(Join(lines)) == StripAll(lines)
  {
    if |lines| == 1 {
      assert lines[0] in lines;
      SplitOneLine(lines[0]);
    } else {
      var front, last := Init(lines), Last(lines);
      assert lines == front + [last];
      SplitJoined(front);
      SplitJoinedStep(front, last);
    }
  }

  lemma {:induction false} SplitJoinedStep(front: seq<string>, last: string)
    requires front != [] && NoNewline(Last(front)) && NoNewline(last)
    requires SplitLines(Join(front)) == StripAll(front)
    ensures SplitLines(Join(front + [last])) == StripAll(front + [last])
  {
    JoinSnoc(front, last);
    SplitAppend(Join(front), ['\n'] + last);
    SplitTwoLines(Last(front), last);
    StripAllSnoc(front, last);
  }

  lemma {:induction false} SplitLinesAreLines(text: string)
    ensures forall l | l in SplitLines(text) :: NoNewline(l)
  {
    forall k | 0 <= k < |SplitLines(text)| ensures NoNewline(SplitLines(text)[k]) {
      PartsAreLines(text, k);
    }
  }

  // ----- a carriage return at the end of a line -----

  lemma {:induction false} SkipSpacesCr(s: string)
    ensures SkipSpaces(s + ['\r']) == if SkipSpaces(s) == [] then [] else SkipSpaces(s) + ['\r']
  {
    if s == [] {
      assert s + ['\r'] == ['\r'];
      assert ['\r'][1..] == [];
    } else {
      assert (s + ['\r'])[1..] == s[1..] + ['\r'];
      SkipSpacesCr(s[1..]);
    }
  }

  lemma {:induction false} LeadingKeyCr(s: string)
    ensures LeadingKey(s + ['\r']) == LeadingKey(s)
  {
    if s == [] {
      assert s + ['\r'] == ['\r'];
    } else {
      assert (s + ['\r'])[1..] == s[1..] + ['\r'];
      LeadingKeyCr(s[1..]);
    }
  }

  lemma MatchKeyCr(s: string)
    ensures MatchKey(s + ['\r']) ==
            match MatchKey(s) { case None => None case Some((key, rest)) => Some((key, rest + ['\r'])) }
  {
    SkipSpacesCr(s);
    var body := SkipSpaces(s);
    if body != [] {
      LeadingKeyCr(body);
      var key := LeadingKey(body);
      assert (body + ['\r'])[|key|..] == body[|key|..] + ['\r'];
      SkipSpacesCr(body[|key|..]);
      var rest := SkipSpaces(body[|key|..]);
      if rest != [] {
        assert (rest + ['\r'])[1..] == rest[1..] + ['\r'];
      }
    }
  }

  /** Reader and writer agree on a line: if it has a key, it also has a readable value. */
  predicate Agrees(line: string) {
    MatchKey(line).Some? ==> MatchSetting(line).Some?
  }

  lemma StripCrKeepsSetting(line: string)
    requires Agrees(line)
    ensures Found(StripCr(line)) == Found(line)
  {
    if StripCr(line) != line {
      var s := StripCr(line);
      MatchKeyCr(s);
      match MatchKey(s) {
        case None =>
        case Some((key, rest)) =>
          SkipSpacesCr(rest);
          assert '\r' in SkipSpaces(rest) + ['\r'];
          assert SkipSpaces(rest) == [];
      }
    }
  }

  lemma {:induction false} SettingsOfStripped(lines: seq<string>)
    requires forall l | l in lines :: Agrees(l)
    ensures Settings(StripAll(lines)) == Settings(lines)
  {
    if lines != [] {
      assert lines[0] in lines;
      StripCrKeepsSetting(lines[0]);
      SettingsOfStripped(lines[1..]);
      assert StripAll(lines)[1..] == StripAll(lines[1..]);
    }
  }

  // ----- reading back what was applied -----

  predicate GoodChanges(changes: Changes) {
    && DistinctKeys(changes)
    && forall p | p in changes :: IsKey(p.key) && GoodValue(p.value)
  }

  predicate IsFirst(ps: seq<Property>, i: nat)
    requires i < |ps|
  {
    forall j | 0 <= j < i :: ps[j].key != ps[i].key
  }

  /** The changes whose key no setting has, in order. */
  function Missing(ps: seq<Property>, changes: Changes): Changes {
    if changes == [] then []
    else (if Has(ps, changes[0].key) then [] else [changes[0]]) + Missing(ps, changes[1..])
  }

  /**
   * The settings a change is meant to leave: the first occurrence of each changed key
   * carries the new value, everything else stays where it is, missing keys follow.
   */
  function Updated(ps: seq<Property>, changes: Changes): seq<Property> {
    Replaced(ps, changes) + Missing(ps, changes)
  }

  function Replaced(ps: seq<Property>, changes: Changes): (r: seq<Property>)
    ensures |r| == |ps|
    ensures forall i | 0 <= i < |r| :: r[i] == UpdatedAt(ps, i, changes)
  {
    seq(|ps|, i requires 0 <= i < |ps| => UpdatedAt(ps, i, changes))
  }

  function UpdatedAt(ps: seq<Property>, i: nat, changes: Changes): Property
    requires i < |ps|
  {
    if IsFirst(ps, i) && Has(changes, ps[i].key) then Property(ps[i].key, Get(changes, ps[i].key)) else ps[i]
  }

  lemma {:induction false} WithoutKeepsOthers(changes: Changes, key: string, other: string)
    requires other != key
    ensures Has(Without(changes, key), other) <==> Has(changes, other)
    ensures Has(changes, other) ==> Get(Without(changes, key), other) == Get(changes, other)
  {
    if changes != [] {
      var rest := changes[1..];
      WithoutKeepsOthers(rest, key, other);
      HasCons(changes[0], rest, other);
      assert changes == [changes[0]] + rest;
      if changes[0].key != key {
        HasCons(changes[0], Without(rest, key), other);
        assert ([changes[0]] + Without(rest, key))[1..] == Without(rest, key);
      }
    }
  }

  lemma HasCons(p: Property, rest: Changes, key: string)
    ensures Has([p] + rest, key) <==> p.key == key || Has(rest, key)
  {
    if Has(rest, key) {
      var i :| 0 <= i < |rest| && rest[i].key == key;
      assert ([p] + rest)[i + 1].key == key;
    }
    if p.key == key {
      assert ([p] + rest)[0].key == key;
    }
  }

  lemma {:induction false} WithoutRemoves(changes: Changes, key: string)
    ensures !Has(Without(changes, key), key)
  {
    var r := Without(changes, key);
    forall i | 0 <= i < |r| ensures r[i].key != key {
      assert r[i] in r;
    }
  }

  lemma {:induction false} WithoutDistinct(changes: Changes, key: string)
    requires DistinctKeys(changes)
    ensures DistinctKeys(Without(changes, key))
  {
    if changes != [] {
      var rest := changes[1..];
      WithoutDistinct(rest, key);
      var r := Without(rest, key);
      forall i | 0 <= i < |r| ensures r[i].key != changes[0].key {
        assert r[i] in rest;
      }
    }
  }

  lemma {:induction false} WithoutGood(changes: Changes, key: string)
    requires GoodChanges(changes)
    ensures GoodChanges(Without(changes, key))
  {
    WithoutDistinct(changes, key);
  }

  lemma {:induction false} MissingAfter(p: Property, ps: seq<Property>, changes: Changes)
    ensures Missing([p] + ps, changes) == Missing(ps, Without(changes, p.key))
  {
    if changes != [] {
      MissingAfter(p, ps, changes[1..]);
      HasCons(p, ps, changes[0].key);
      var w := Without(changes[1..], p.key);
      if changes[0].key != p.key {
        assert ([changes[0]] + w)[1..] == w;
      }
    }
  }

  lemma {:induction false} WithoutAbsent(changes: Changes, key: string)
    requires !Has(changes, key)
    ensures Without(changes, key) == changes
  {
    if changes != [] {
      assert changes == [changes[0]] + changes[1..];
      HasCons(changes[0], changes[1..], key);
      WithoutAbsent(changes[1..], key);
    }
  }

  lemma FirstAfter(p: Property, ps: seq<Property>, i: nat)
    requires i < |ps|
    ensures IsFirst([p] + ps, i + 1) <==> ps[i].key != p.key && IsFirst(ps, i)
  {
    var all := [p] + ps;
    if IsFirst(all, i + 1) {
      assert all[0].key != all[i + 1].key;
      forall j | 0 <= j < i ensures ps[j].key != ps[i].key {
        assert all[j + 1].key != all[i + 1].key;
      }
    }
  }

  /** The head of an update, and the update of the rest. */
  lemma {:induction false} UpdatedCons(p: Property, ps: seq<Property>, changes: Changes)
    ensures Updated([p] + ps, changes)
         == [if Has(changes, p.key) then Property(p.key, Get(changes, p.key))
             else p] + Updated(ps, Without(changes, p.key))
  {
    var left := Without(changes, p.key);
    MissingAfter(p, ps, changes);
    ReplacedCons(p, ps, changes);
    ConcatAssociates([UpdatedAt([p] + ps, 0, changes)], Replaced(ps, left), Missing(ps, left));
  }

  lemma {:induction false} ReplacedCons(p: Property, ps: seq<Property>, changes: Changes)
    ensures Replaced([p] + ps, changes)
         == [UpdatedAt([p] + ps, 0, changes)] + Replaced(ps, Without(changes, p.key))
  {
    forall i | 0 <= i < |ps| ensures Replaced([p] + ps, changes)[i + 1] == Replaced(ps, Without(changes, p.key))[i] {
      UpdatedAfter(p, ps, i, changes);
    }
  }

  lemma {:induction false} UpdatedAfter(p: Property, ps: seq<Property>, i: nat, changes: Changes)
    requires i < |ps|
    ensures UpdatedAt([p] + ps, i + 1, changes) == UpdatedAt(ps, i, Without(changes, p.key))
  {
    FirstAfter(p, ps, i);
    WithoutRemoves(changes, p.key);
    if ps[i].key != p.key {
      WithoutKeepsOthers(changes, p.key, ps[i].key);
    }
  }

  lemma SettingLinesCons(changes: Changes)
    requires changes != []
    ensures SettingLines(changes) == [SettingLine(changes[0])] + SettingLines(changes[1..])
  {
  }

  lemma FirstIsRead(changes: Changes)
    requires GoodChanges(changes) && changes != []
    ensures Found(SettingLine(changes[0])) == [changes[0]] && GoodChanges(changes[1..])
  {
    assert changes[0] in changes;
    ValueRoundTripsIff(changes[0]);
  }

  lemma {:induction false} SettingsOfChanges(changes: Changes)
    requires GoodChanges(changes)
    ensures Settings(SettingLines(changes)) == changes
    ensures Updated([], changes) == changes
  {
    if changes != [] {
      FirstIsRead(changes);
      SettingsOfChanges(changes[1..]);
      SettingLinesCons(changes);
      SettingsCons(SettingLine(changes[0]), SettingLines(changes[1..]));
      assert changes == [changes[0]] + changes[1..];
    }
  }

  lemma {:induction false} FoundInWritten(changes: Changes, key: string)
    requires GoodChanges(changes) && Has(changes, key)
    ensures Found(SettingLine(Property(key, Get(changes, key)))) == [Property(key, Get(changes, key))]
  {
    var p := Property(key, Get(changes, key));
    assert p in changes;
    ValueRoundTripsIff(p);
  }

  /** What a rewritten line is read as. */
  lemma {:induction false} FoundInRewritten(l: string, changes: Changes)
    requires GoodChanges(changes) && Agrees(l)
    ensures var (line, left) := RewriteLine(l, changes);
            && GoodChanges(left)
            && match MatchSetting(l) {
                 case None => Found(line) == [] && left == changes
                 case Some(p) =>
                   && left == Without(changes, p.key)
                   && Found(line) == [if Has(changes, p.key) then Property(p.key, Get(changes, p.key)) else p]
               }
  {
    match MatchSetting(l) {
      case None =>
      case Some(p) =>
        WithoutGood(changes, p.key);
        if Has(changes, p.key) {
          FoundInWritten(changes, p.key);
        } else {
          WithoutAbsent(changes, p.key);
        }
    }
  }

  lemma {:induction false} SettingsOfRewritten(lines: seq<string>, changes: Changes)
    requires GoodChanges(changes) && forall l | l in lines :: Agrees(l)
    ensures Settings(Rewrite(lines, changes)) == Updated(Settings(lines), changes)
  {
    if lines == [] {
      SettingsOfChanges(changes);
    } else {
      var l, rest := lines[0], lines[1..];
      assert l in lines;
      var (line, left) := RewriteLine(l, changes);
      FoundInRewritten(l, changes);
      SettingsOfRewritten(rest, left);
      SettingsCons(line, Rewrite(rest, left));
      match MatchSetting(l) {
        case None => assert Settings(lines) == Settings(rest);
        case Some(p) => UpdatedCons(p, Settings(rest), changes);
      }
    }
  }

  lemma {:induction false} SettingsCons(line: string, rest: seq<string>)
    ensures Settings([line] + rest) == Found(line) + Settings(rest)
  {
    assert ([line] + rest)[1..] == rest;
  }

  lemma {:induction false} RewrittenLines(lines: seq<string>, changes: Changes)
    requires GoodChanges(changes)
    ensures forall l | l in Rewrite(lines, changes) ::
              l in lines || (Agrees(l) && NoNewline(l) && StripCr(l) == l)
  {
    forall p: Property | IsKey(p.key) && GoodValue(p.value) ensures WellWritten(SettingLine(p)) {
      WrittenLine(p);
    }
    if lines == [] {
      forall l | l in SettingLines(changes) ensures WellWritten(l) {
        var i :| 0 <= i < |changes| && l == SettingLine(changes[i]);
        assert changes[i] in changes;
      }
    } else {
      var (line, left) := RewriteLine(lines[0], changes);
      if Replaces(lines[0], changes) {
        var key := MatchKey(lines[0]).value.0;
        assert Property(key, Get(changes, key)) in changes;
        WithoutGood(changes, key);
      }
      RewrittenLines(lines[1..], left);
    }
  }

  predicate WellWritten(l: string) {
    Agrees(l) && NoNewline(l) && StripCr(l) == l
  }

  lemma WrittenLine(p: Property)
    requires IsKey(p.key) && GoodValue(p.value)
    ensures WellWritten(SettingLine(p))
  {
    ValueRoundTripsIff(p);
    WrittenCharacters(p);
    var line := SettingLine(p);
    assert Last(line) in line;
  }

  lemma WrittenCharacters(p: Property)
    requires IsKey(p.key) && SingleLine(p.value)
    ensures SettingLine(p) != [] && forall c | c in SettingLine(p) :: c != '\n' && c != '\r'
  {
    assert forall c | c in SettingLine(p) :: c in p.key || c == '=' || c in p.value;
  }

  /**
   * Reading back an applied change gives the old settings with the first occurrence
   * of each changed key replaced, everything else kept in place, and the keys the
   * file lacked appended in order.
   */
  lemma {:induction false} ParseAfterApply(text: string, changes: Changes)
    requires GoodChanges(changes)
    requires forall l | l in SplitLines(text) :: Agrees(l)
    ensures Settings(SplitLines(Apply(text, changes))) == Updated(Settings(SplitLines(text)), changes)
  {
    var lines := SplitLines(text);
    var out := Rewrite(lines, changes);
    RewriteIsNonempty(lines, changes);
    SplitLinesAreLines(text);
    RewrittenLines(lines, changes);
    SplitJoined(out);
    SettingsOfStripped(out);
    SettingsOfRewritten(lines, changes);
  }

  // ----- applying twice, applying nothing -----

  lemma {:induction false} WithoutFirst(changes: Changes)
    requires DistinctKeys(changes) && changes != []
    ensures Without(changes, changes[0].key) == changes[1..]
  {
    var rest := changes[1..];
    forall i | 0 <= i < |rest| ensures rest[i].key != changes[0].key {
      assert rest[i] == changes[i + 1];
    }
    WithoutAbsent(rest, changes[0].key);
  }

  lemma {:induction false} RewriteSettingLines(changes: Changes)
    requires GoodChanges(changes)
    ensures Rewrite(SettingLines(changes), changes) == SettingLines(changes)
  {
    if changes != [] {
      var p, rest := changes[0], changes[1..];
      assert p in changes;
      SettingLineMatches(p);
      WithoutFirst(changes);
      assert GoodChanges(rest);
      RewriteSettingLines(rest);
      SettingLinesCons(changes);
      assert SettingLines(changes)[1..] == SettingLines(rest);
    }
  }

  lemma {:induction false} RewriteTwice(lines: seq<string>, changes: Changes)
    requires GoodChanges(changes)
    ensures Rewrite(Rewrite(lines, changes), changes) == Rewrite(lines, changes)
  {
    if lines == [] {
      RewriteSettingLines(changes);
    } else {
      var (line, left) := RewriteLine(lines[0], changes);
      var rest := Rewrite(lines[1..], left);
      if Replaces(lines[0], changes) {
        var key := MatchKey(lines[0]).value.0;
        var p := Property(key, Get(changes, key));
        assert p in changes;
        SettingLineMatches(p);
        WithoutGood(changes, key);
      }
      RewriteTwice(lines[1..], left);
      assert ([line] + rest)[1..] == rest;
      assert RewriteLine(line, changes) == (line, left);
    }
  }

  /** Saving the same values again changes nothing. */
  lemma {:induction false} ApplyIsIdempotent(text: string, changes: Changes)
    requires GoodChanges(changes)
    requires forall l | l in SplitLines(text) :: StripCr(l) == l
    ensures Apply(Apply(text, changes), changes) == Apply(text, changes)
  {
    var lines := SplitLines(text);
    var out := Rewrite(lines, changes);
    RewriteIsNonempty(lines, changes);
    SplitLinesAreLines(text);
    RewrittenLines(lines, changes);
    SplitJoined(out);
    forall i | 0 <= i < |out| ensures StripCr(out[i]) == out[i] {
      assert out[i] in out;
    }
    assert StripAll(out) == out;
    RewriteTwice(lines, changes);
  }

  /** `text.replace(/\r\n/g, "\n")`. */
  function Normalized(text: string): string {
    if text == [] then []
    else if Last(text) == '\n' then StripCr(Normalized(Init(text))) + ['\n']
    else Normalized(Init(text)) + [Last(text)]
  }

  lemma StripCrAfterBreak(a: string, b: string)
    ensures StripCr(a + (['\n'] + b)) == a + (['\n'] + StripCr(b))
  {
    var s := a + (['\n'] + b);
    if b != [] {
      assert Init(s) == a + (['\n'] + Init(b));
    }
  }

  lemma {:induction false} StripLastPart(front: seq<string>, last: string)
    ensures Join(front + [StripCr(last)]) == StripCr(Join(front + [last]))
  {
    if front == [] {
      assert front + [last] == [last] && front + [StripCr(last)] == [StripCr(last)];
    } else {
      JoinSnoc(front, last);
      JoinSnoc(front, StripCr(last));
      StripCrAfterBreak(Join(front), last);
    }
  }

  lemma {:induction false} JoinStep(parts: seq<string>, c: char)
    requires parts != []
    ensures Join(SplitStep(parts, c)) == if c == '\n' then StripCr(Join(parts)) + ['\n'] else Join(parts) + [c]
  {
    var front, last := Init(parts), Last(parts);
    assert parts == front + [last];
    if c == '\n' {
      assert SplitStep(parts, c) == front + [StripCr(last)] + [""];
      JoinSnoc(front + [StripCr(last)], "");
      StripLastPart(front, last);
      assert ['\n'] + "" == ['\n'];
    } else if front == [] {
      assert front + [last] == [last] && SplitStep(parts, c) == [last + [c]];
    } else {
      JoinSnoc(front, last);
      JoinSnoc(front, last + [c]);
      assert Join(front) + (['\n'] + (last + [c])) == Join(front) + (['\n'] + last) + [c];
    }
  }

  lemma {:induction false} JoinSplit(text: string)
    ensures Join(SplitLines(text)) == Normalized(text)
  {
    if text != [] {
      JoinSplit(Init(text));
      JoinStep(SplitLines(Init(text)), Last(text));
    }
  }

  lemma {:induction false} RewriteNothing(lines: seq<string>)
    ensures Rewrite(lines, []) == lines
  {
    if lines != [] {
      RewriteNothing(lines[1..]);
    }
  }

  /** Without changes, applying only turns `\r\n` into `\n`. */
  lemma {:induction false} ApplyNothing(text: string)
    ensures Apply(text, []) == Normalized(text)
  {
    RewriteNothing(SplitLines(text));
    JoinSplit(text);
  }

  // ----- texts on which reader and writer agree -----

  /** Carriage returns only in front of line feeds, and no Unicode line separators. */
  predicate CleanText(text: string) {
    CleanPrefix(text) && (text == [] || Last(text) != '\r')
  }

  /** As `CleanText`, for a prefix that may stop inside a `\r\n`. */
  predicate CleanPrefix(text: string) {
    forall i | 0 <= i < |text| ::
      && text[i] != '\U{2028}' && text[i] != '\U{2029}'
      && (text[i] == '\r' && i + 1 < |text| ==> text[i + 1] == '\n')
  }

  lemma {:induction false} CleanLines(text: string)
    requires CleanPrefix(text)
    ensures forall l | l in Init(SplitLines(text)) :: SingleLine(l)
    ensures SingleLine(StripCr(Last(SplitLines(text))))
    ensures StripCr(Last(SplitLines(text))) != Last(SplitLines(text)) ==> text != [] && Last(text) == '\r'
  {
    if text != [] {
      var parts, c := SplitLines(Init(text)), Last(text);
      assert text == Init(text) + [c];
      CleanLines(Init(text));
      if |text| > 1 {
        assert text[|text| - 2] == Last(Init(text));
      }
      assert c == text[|text| - 1];
      CleanStep(parts, c);
    }
  }

  lemma CleanBreak(parts: seq<string>)
    requires parts != []
    requires forall l | l in Init(parts) :: SingleLine(l)
    requires SingleLine(StripCr(Last(parts)))
    ensures forall l | l in Init(SplitStep(parts, '\n')) :: SingleLine(l)
    ensures Last(SplitStep(parts, '\n')) == "" && StripCr("") == ""
  {
    assert Init(SplitStep(parts, '\n')) == Init(parts) + [StripCr(Last(parts))];
  }

  lemma StripLonger(last: string, c: char)
    ensures StripCr(last + [c]) == if c == '\r' then last else last + [c]
  {
    assert Init(last + [c]) == last;
  }

  lemma CleanCharacter(parts: seq<string>, c: char)
    requires parts != [] && c != '\n'
    ensures Init(SplitStep(parts, c)) == Init(parts)
    ensures Last(SplitStep(parts, c)) == Last(parts) + [c]
  {
  }

  lemma CleanStep(parts: seq<string>, c: char)
    requires parts != []
    requires forall l | l in Init(parts) :: SingleLine(l)
    requires SingleLine(StripCr(Last(parts)))
    requires c != '\U{2028}' && c != '\U{2029}'
    requires StripCr(Last(parts)) == Last(parts) || c == '\n'
    ensures forall l | l in Init(SplitStep(parts, c)) :: SingleLine(l)
    ensures SingleLine(StripCr(Last(SplitStep(parts, c))))
    ensures StripCr(Last(SplitStep(parts, c))) != Last(SplitStep(parts, c)) ==> c == '\r'
  {
    if c == '\n' {
      CleanBreak(parts);
    } else {
      CleanCharacter(parts, c);
      StripLonger(Last(parts), c);
    }
  }

  /** The texts every line of which satisfies the conditions of the two theorems above. */
  lemma {:induction false} CleanTextAgrees(text: string)
    requires CleanText(text)
    ensures forall l | l in SplitLines(text) :: Agrees(l) && StripCr(l) == l
  {
    CleanLines(text);
    var parts := SplitLines(text);
    forall l | l in parts ensures Agrees(l) && StripCr(l) == l {
      assert parts == Init(parts) + [Last(parts)];
      assert SingleLine(l);
      SingleLineAgrees(l);
    }
  }

  lemma SingleLineAgrees(l: string)
    requires SingleLine(l)
    ensures Agrees(l) && StripCr(l) == l
  {
    if l != [] {
      assert Last(l) in l;
    }
    var body := SkipSpaces(l);
    SkipSpacesIsSuffix(l);
    var key := LeadingKey(body);
    SkipSpacesIsSuffix(body[|key|..]);
    var rest := SkipSpaces(body[|key|..]);
    assert forall c | c in rest :: c in l;
    if rest != [] {
      SkipSpacesIsSuffix(rest[1..]);
      assert forall c | c in rest[1..] :: c in rest;
    }
  }

  lemma {:induction false} SkipSpacesIsSuffix(s: string)
    ensures forall c | c in SkipSpaces(s) :: c in s
  {
    if s != [] {
      SkipSpacesIsSuffix(s[1..]);
    }
  }

  /**
   * With a lone carriage return the round trip fails: the reader ignores the value,
   * the writer drops the carriage return in front of its own line break, and a
   * setting appears that was not there before, without any change being applied.
   */
  lemma LoneReturnExposesSetting(p: Property)
    requires IsKey(p.key) && GoodValue(p.value) && p.value != []
    ensures var text := SettingLine(p) + "\r" + "\r" + ("\n" + "");
            Settings(SplitLines(text)) == [] && Settings(SplitLines(Apply(text, []))) == [p]
  {
    var line := SettingLine(p);
    var bare := line + "\r";
    WrittenCharacters(p);
    SplitTwoLines(bare + "\r", "");
    SplitTwoLines(bare, "");
    assert Init(bare + "\r") == bare && Init(bare) == line;
    var lines := SplitLines(bare + "\r" + ("\n" + ""));
    assert lines == [bare] + [""];
    RewriteNothing(lines);
    JoinSnoc([bare], "");
    FoundWithAndWithoutReturn(p);
    assert SplitLines(Join(lines)) == [line] + [""];
    SettingsCons(line, [""]);
    SettingsCons(bare, [""]);
    SettingsCons("", []);
    assert [""] + [] == [""];
  }

  lemma FoundWithAndWithoutReturn(p: Property)
    requires IsKey(p.key) && GoodValue(p.value) && p.value != []
    ensures Found(SettingLine(p)) == [p] && Found(SettingLine(p) + "\r") == [] && Found("") == []
  {
    SettingLineMatches(p);
    ValueRoundTripsIff(p);
    MatchKeyCr(SettingLine(p));
    var value := p.value + ['\r'];
    assert SkipSpaces(value) == value && '\r' in value;
  }

  /** A line that holds no setting, but holds one once the carriage return at its end is dropped. */
  predicate Exposes(line: string) {
    MatchSetting(line).None? && MatchSetting(StripCr(line)).Some?
  }

  /** Every line but the last loses that carriage return when the text is written again. */
  predicate NoneExposes(lines: seq<string>) {
    forall k | 0 <= k < |lines| - 1 :: !Exposes(lines[k])
  }

  lemma StripCrFound(line: string)
    ensures !Exposes(line) ==> Found(StripCr(line)) == Found(line)
    ensures Exposes(line) ==> |Found(StripCr(line))| == |Found(line)| + 1
  {
    if MatchSetting(line).Some? {
      StripCrKeepsSetting(line);
    }
  }

  lemma {:induction false} StripAllSettings(lines: seq<string>)
    ensures |Settings(StripAll(lines))| >= |Settings(lines)|
    ensures NoneExposes(lines) ==> Settings(StripAll(lines)) == Settings(lines)
    ensures !NoneExposes(lines) ==> |Settings(StripAll(lines))| > |Settings(lines)|
  {
    if |lines| > 1 {
      var rest := lines[1..];
      StripAllSettings(rest);
      StripCrFound(lines[0]);
      assert StripAll(lines)[1..] == StripAll(rest);
      assert NoneExposes(lines) <==> !Exposes(lines[0]) && NoneExposes(rest) by {
        assert forall k | 0 <= k < |rest| :: rest[k] == lines[k + 1];
      }
    } else {
      assert StripAll(lines) == lines;
    }
  }

  /**
   * Applying no change at all keeps the settings if and only if no line but the last
   * holds a setting that only a stray carriage return at its end hides.
   */
  lemma {:induction false} NothingChangesIff(text: string)
    ensures Settings(SplitLines(Apply(text, []))) == Settings(SplitLines(text)) <==> NoneExposes(SplitLines(text))
  {
    var lines := SplitLines(text);
    SplitLinesAreLines(text);
    RewriteNothing(lines);
    SplitJoined(lines);
    StripAllSettings(lines);
  }
}
