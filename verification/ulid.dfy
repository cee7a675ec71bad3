/// ULID generation: a 48-bit millisecond clock followed by an 80-bit counter,
/// written as 26 Crockford base-32 digits.
///
/// The two encoders and the in-place increment are the loops of the source.
/// They are proved against positional values, and the ordering theorem is about
/// the strings themselves.
module Ulid {
  import opened Arith

  const ENCODING: string := "0123456789ABCDEFGHJKMNPQRSTVWXYZ"
  const WORD: int := 0x1_0000_0000
  const COUNTERS: int := 0x1_0000_0000_0000_0000_0000

  type Byte = b: int | 0 <= b < 256

  type Digit = d: int | 0 <= d < 32

  // ----- what the encoders compute -----

  /** The `n` low base-32 digits of `v`, most significant first. */
  function Digits(v: nat, n: nat): (ds: seq<Digit>)
    ensures |ds| == n
  {
    if n == 0 then [] else Digits(v / 32, n - 1) + [v % 32]
  }

  function Render(ds: seq<Digit>): (s: string)
    ensures |s| == |ds| && forall i | 0 <= i < |s| :: s[i] == ENCODING[ds[i]]
  {
    seq(|ds|, i requires 0 <= i < |ds| => ENCODING[ds[i]])
  }

  /** What a byte string denotes, most significant byte first. */
  function BigEndian(bytes: seq<Byte>): nat {
    if bytes == [] then 0 else 256 * BigEndian(bytes[..|bytes| - 1]) + bytes[|bytes| - 1]
  }

  lemma {:induction false} BigEndianBound(bytes: seq<Byte>)
    ensures BigEndian(bytes) < Pow(256, |bytes|)
  {
    if bytes != [] {
      BigEndianBound(bytes[..|bytes| - 1]);
    }
  }

  // ----- order -----

  /** Lexicographic order on strings, as JavaScript and SQLite compare them. */
  predicate LexLess(a: string, b: string) {
    if b == [] then false
    else if a == [] then true
    else a[0] < b[0] || (a[0] == b[0] && LexLess(a[1..], b[1..]))
  }

  lemma {:induction false} AlphabetAscends(i: nat, j: nat)
    requires i < j < 32
    ensures ENCODING[i] < ENCODING[j]
    decreases j - i
  {
    if i + 1 < j {
      AlphabetAscends(i + 1, j);
    }
    assert i == 0 || i == 1 || i == 2 || i == 3 || i == 4 || i == 5 || i == 6 || i == 7 || i == 8 || i == 9
        || i == 10 || i == 11 || i == 12 || i == 13 || i == 14 || i == 15 || i == 16 || i == 17 || i == 18
        || i == 19 || i == 20 || i == 21 || i == 22 || i == 23 || i == 24 || i == 25 || i == 26 || i == 27
        || i == 28 || i == 29 || i == 30;
  }

  lemma {:induction false} LexLessLast(a: string, c: char, b: string, d: char)
    requires |a| == |b|
    ensures LexLess(a + [c], b + [d]) <==> LexLess(a, b) || (a == b && c < d)
  {
    if a == [] {
      assert (a + [c])[1..] == [] && (b + [d])[1..] == [];
    } else {
      LexLessLast(a[1..], c, b[1..], d);
      assert (a + [c])[1..] == a[1..] + [c] && (b + [d])[1..] == b[1..] + [d];
      assert a == [a[0]] + a[1..] && b == [b[0]] + b[1..];
    }
  }

  /**
   * Fixed-width renderings compare, as strings, like the numbers they denote. In
   * particular the encoding is injective.
   */
  lemma {:induction false} LexOrderIsNumeric(x: nat, y: nat, n: nat)
    requires x < Pow(32, n) && y < Pow(32, n)
    ensures LexLess(Render(Digits(x, n)), Render(Digits(y, n))) <==> x < y
    ensures Render(Digits(x, n)) == Render(Digits(y, n)) <==> x == y
  {
    if n == 0 {
    } else {
      LexOrderIsNumeric(x / 32, y / 32, n - 1);
      var a, b := Render(Digits(x / 32, n - 1)), Render(Digits(y / 32, n - 1));
      var c, d := ENCODING[x % 32], ENCODING[y % 32];
      assert Render(Digits(x, n)) == a + [c] && Render(Digits(y, n)) == b + [d];
      LexLessLast(a, c, b, d);
      assert a + [c] == b + [d] <==> a == b && c == d by {
        assert (a + [c])[..n - 1] == a && (b + [d])[..n - 1] == b;
        assert (a + [c])[n - 1] == c && (b + [d])[n - 1] == d;
      }
      if x % 32 < y % 32 {
        AlphabetAscends(x % 32, y % 32);
      } else if y % 32 < x % 32 {
        AlphabetAscends(y % 32, x % 32);
      }
    }
  }

  lemma {:induction false} DigitsConcat(a: nat, n: nat, b: nat, m: nat)
    requires b < Pow(32, m)
    ensures Digits(a, n) + Digits(b, m) == Digits(a * Pow(32, m) + b, n + m)
  {
    if m == 0 {
      assert a * Pow(32, 0) + b == a;
    } else {
      DigitsConcat(a, n, b / 32, m - 1);
      var p := Pow(32, m - 1);
      Associate(a, p, 32);
      assert a * Pow(32, m) + b == 32 * (a * p + b / 32) + b % 32;
      DivisionIs(a * Pow(32, m) + b, a * p + b / 32, 32, b % 32);
    }
  }

  // ----- the encoders -----

  method EncodeTime(time0: nat) returns (out: string)
    ensures out == Render(Digits(time0, 10))
  {
    out := "";
    var time := time0;
    ghost var low: seq<Digit> := [];
    for i := 0 to 10
      invariant out == Render(low)
      invariant Digits(time, 10 - i) + low == Digits(time0, 10)
    {
      low := [time % 32] + low;
      out := [ENCODING[time % 32]] + out;
      time := time / 32;
    }
    assert [] + low == low;
  }

  /** `x >>> k` and `x << k` on unbounded naturals. */
  function ShiftRight(x: nat, k: nat): nat {
    if k == 0 then x else ShiftRight(x / 2, k - 1)
  }

  function ShiftLeft(x: nat, k: nat): nat {
    if k == 0 then x else 2 * ShiftLeft(x, k - 1)
  }

  /**
   * `acc` is the 32-bit accumulator, read as an unsigned word: `acc << 8` leaves
   * the low byte clear, so the following `|` adds, and both wrap modulo 2^32.
   */
  method EncodeRandom(bits: seq<Byte>) returns (out: string)
    ensures 8 * |bits| <= 5 * |out| < 8 * |bits| + 5
    ensures out == Render(Digits(ShiftLeft(BigEndian(bits), 5 * |out| - 8 * |bits|), |out|))
  {
    out := "";
    var acc := 0;
    var accBits := 0;
    for i := 0 to |bits|
      invariant 0 <= accBits < 5 && 5 * |out| + accBits == 8 * i
      invariant acc == BigEndian(bits[..i]) % WORD
      invariant out == Render(Digits(ShiftRight(BigEndian(bits[..i]), accBits), |out|))
    {
      ghost var all := BigEndian(bits[..i + 1]);
      NextByte(bits, i);
      ShiftInByte(BigEndian(bits[..i]), bits[i], accBits);
      acc := (acc * 256 % WORD + bits[i]) % WORD;
      accBits := accBits + 8;
      while accBits >= 5
        invariant 0 <= accBits < 13 && 5 * |out| + accBits == 8 * (i + 1)
        invariant acc == all % WORD
        invariant out == Render(Digits(ShiftRight(all, accBits), |out|))
      {
        NextDigit(all, accBits - 5, |out|);
        out := out + [ENCODING[ShiftRight(acc, accBits - 5) % 32]];
        accBits := accBits - 5;
      }
    }
    assert bits[..|bits|] == bits;
    if accBits > 0 {
      PaddedDigit(BigEndian(bits), 5 - accBits, |out|);
      out := out + [ENCODING[ShiftLeft(acc, 5 - accBits) % WORD % 32]];
    }
  }

  lemma NextByte(bits: seq<Byte>, i: nat)
    requires i < |bits|
    ensures BigEndian(bits[..i + 1]) == 256 * BigEndian(bits[..i]) + bits[i]
  {
    assert bits[..i + 1][..i] == bits[..i];
  }

  /** Cutting the next digit out of the accumulator. */
  lemma NextDigit(all: nat, k: nat, n: nat)
    requires k + 5 <= 32
    ensures Render(Digits(ShiftRight(all, k + 5), n)) + [ENCODING[ShiftRight(all % WORD, k) % 32]]
         == Render(Digits(ShiftRight(all, k), n + 1))
  {
    ExtractDigit(all, k);
    AppendDigit(ShiftRight(all, k), n);
  }

  /** The last digit, padded on the right. */
  lemma PaddedDigit(all: nat, k: nat, n: nat)
    requires k <= 5
    ensures Render(Digits(ShiftRight(all, 5 - k), n)) + [ENCODING[ShiftLeft(all % WORD, k) % WORD % 32]]
         == Render(Digits(ShiftLeft(all, k), n + 1))
  {
    PadDigit(all, k);
    AppendDigit(ShiftLeft(all, k), n);
  }

  lemma {:induction false} AppendDigit(v: nat, n: nat)
    ensures Render(Digits(v / 32, n)) + [ENCODING[v % 32]] == Render(Digits(v, n + 1))
  {
  }

  lemma {:induction false} ShiftRightTwice(x: nat, j: nat, k: nat)
    ensures ShiftRight(ShiftRight(x, j), k) == ShiftRight(x, j + k)
  {
    if j > 0 {
      ShiftRightTwice(x / 2, j - 1, k);
    }
  }

  lemma {:induction false} ShiftRightDivides(x: nat, k: nat)
    ensures ShiftRight(x, k) == x / Pow(2, k)
  {
    if k > 0 {
      ShiftRightDivides(x / 2, k - 1);
      DivDiv(x, 2, Pow(2, k - 1));
    }
  }

  lemma ShiftInByte(before: nat, b: Byte, accBits: nat)
    ensures (256 * before + b) % WORD == (before % WORD * 256 % WORD + b) % WORD
    ensures ShiftRight(256 * before + b, accBits + 8) == ShiftRight(before, accBits)
  {
    WrappedByte(before, b);
    ShiftRightDivides(256 * before + b, 8);
    assert Pow(2, 4) == 16;
    PowAdd(2, 4, 4);
    ShiftRightTwice(256 * before + b, 8, accBits);
  }

  lemma WrappedByte(x: nat, b: Byte)
    ensures (256 * x + b) % WORD == (x % WORD * 256 % WORD + b) % WORD
  {
    var y := x % WORD * 256;
    AddMultiple(256 * (x / WORD), y + b, WORD);
    AddMultiple(y / WORD, y % WORD + b, WORD);
  }

  /** Wrapping at 32 bits never touches the digit that is cut out of the accumulator. */
  lemma ExtractDigit(all: nat, k: nat)
    requires k + 5 <= 32
    ensures ShiftRight(all, k) / 32 == ShiftRight(all, k + 5)
    ensures ShiftRight(all, k) % 32 == ShiftRight(all % WORD, k) % 32
  {
    ShiftRightTwice(all, k, 5);
    ShiftRightDivides(ShiftRight(all, k), 5);
    WordSize();
    ShiftRightMod(all, 32, k);
    assert Pow(2, 5) == 32;
    PowAdd(2, 27 - k, 5);
    ModMod(ShiftRight(all, k), Pow(2, 27 - k), 32);
  }

  lemma {:induction false} ShiftRightMod(x: nat, n: nat, k: nat)
    requires k <= n
    ensures ShiftRight(x % Pow(2, n), k) == ShiftRight(x, k) % Pow(2, n - k)
  {
    if k > 0 {
      ModDiv(x, 2, Pow(2, n - 1));
      ShiftRightMod(x / 2, n - 1, k - 1);
    }
  }

  lemma WordSize()
    ensures Pow(2, 32) == WORD
  {
    assert Pow(2, 4) == 16;
    PowAdd(2, 4, 4);
    PowAdd(2, 8, 8);
    PowAdd(2, 16, 16);
  }

  lemma {:induction false} PadDigit(all: nat, k: nat)
    requires k <= 5
    ensures ShiftLeft(all, k) / 32 == ShiftRight(all, 5 - k)
    ensures ShiftLeft(all, k) % 32 == ShiftLeft(all % WORD, k) % WORD % 32
  {
    ShiftBack(all, k, 5);
    ShiftRightDivides(ShiftLeft(all, k), 5);
    assert Pow(2, 5) == 32;
    ModMod(all, WORD / 32, 32);
    ShiftLeftMod(all, all % WORD, k);
    ModMod(ShiftLeft(all % WORD, k), WORD / 32, 32);
  }

  lemma {:induction false} ShiftBack(x: nat, k: nat, n: nat)
    requires k <= n
    ensures ShiftRight(ShiftLeft(x, k), n) == ShiftRight(x, n - k)
  {
    if k > 0 {
      ShiftBack(x, k - 1, n - 1);
    }
  }

  lemma {:induction false} ShiftLeftMod(x: nat, y: nat, k: nat)
    requires x % 32 == y % 32
    ensures ShiftLeft(x, k) % 32 == ShiftLeft(y, k) % 32
  {
    if k > 0 {
      ShiftLeftMod(x, y, k - 1);
      var a, b := ShiftLeft(x, k - 1), ShiftLeft(y, k - 1);
      AddMultiple(2 * (a / 32), 2 * (a % 32), 32);
      AddMultiple(2 * (b / 32), 2 * (b % 32), 32);
    }
  }

  // ----- the generator -----

  /** The module variables between two calls. */
  datatype State = State(lastTime: int, lastRandom: seq<Byte>)

  predicate ValidState(s: State) {
    s.lastTime >= 0 ==> |s.lastRandom| == 10
  }

  /** One request: the clock reading, and the ten random bytes used if a new millisecond starts. */
  datatype Call = Call(now: nat, entropy: seq<Byte>)

  predicate ValidCall(c: Call) {
    |c.entropy| == 10 && c.now < Pow(32, 10)
  }

  /** Big-endian increment with wrap-around, least significant byte last. */
  function Incremented(bytes: seq<Byte>): (r: seq<Byte>)
    ensures |r| == |bytes|
  {
    if bytes == [] then []
    else if bytes[|bytes| - 1] < 255 then bytes[..|bytes| - 1] + [bytes[|bytes| - 1] + 1]
    else Incremented(bytes[..|bytes| - 1]) + [0]
  }

  function Advance(s: State, c: Call): (s': State)
    requires ValidState(s) && ValidCall(c)
    ensures ValidState(s')
  {
    if c.now == s.lastTime then s.(lastRandom := Incremented(s.lastRandom)) else State(c.now, c.entropy)
  }

  /** The number an identifier denotes: clock in front, counter behind. */
  function Token(s: State): nat
    requires s.lastTime >= 0
  {
    s.lastTime * COUNTERS + BigEndian(s.lastRandom)
  }

  lemma TokenDigits(s: State)
    requires ValidState(s) && s.lastTime >= 0
    ensures Render(Digits(s.lastTime, 10)) + Render(Digits(BigEndian(s.lastRandom), 16)) == Render(Digits(Token(s), 26))
  {
    BigEndianBound(s.lastRandom);
    SixteenDigitsHoldTenBytes();
    DigitsConcat(s.lastTime, 10, BigEndian(s.lastRandom), 16);
  }

  predicate Exhausted(bytes: seq<Byte>) {
    forall i | 0 <= i < |bytes| :: bytes[i] == 255
  }

  lemma {:induction false} IncrementedAddsOne(bytes: seq<Byte>)
    ensures !Exhausted(bytes) ==> BigEndian(Incremented(bytes)) == BigEndian(bytes) + 1
    ensures Exhausted(bytes) ==> BigEndian(Incremented(bytes)) == 0 && BigEndian(bytes) == Pow(256, |bytes|) - 1
  {
    if bytes != [] {
      var init, last := bytes[..|bytes| - 1], bytes[|bytes| - 1];
      IncrementedAddsOne(init);
      assert bytes == init + [last];
      var r := Incremented(bytes);
      if last < 255 {
        assert r[..|r| - 1] == init;
      } else {
        assert r[..|r| - 1] == Incremented(init);
      }
    }
  }

  class Generator {
    var lastTime: int
    var lastRandom: seq<Byte>

    ghost predicate Valid()
      reads this
    {
      ValidState(Current())
    }

    ghost function Current(): State
      reads this
    {
      State(lastTime, lastRandom)
    }

    constructor ()
      ensures Valid() && Current() == State(-1, [])
    {
      lastTime, lastRandom := -1, [];
    }

    /** `entropy` stands for the ten bytes `crypto.getRandomValues` would return. */
    method Next(now: nat, entropy: seq<Byte>) returns (id: string)
      requires Valid() && ValidCall(Call(now, entropy))
      modifies this
      ensures Valid() && Current() == Advance(old(Current()), Call(now, entropy))
      ensures id == Render(Digits(Token(Current()), 26))
    {
      if now == lastTime {
        Increment();
      } else {
        lastTime := now;
        lastRandom := entropy;
      }
      var front := EncodeTime(now);
      var back := EncodeRandom(lastRandom);
      TokenDigits(Current());
      id := front + back;
    }

    method Increment()
      modifies this`lastRandom
      ensures lastRandom == Incremented(old(lastRandom))
    {
      ghost var before := lastRandom;
      var i := |lastRandom| - 1;
      while i >= 0
        invariant -1 <= i < |lastRandom| == |before|
        invariant before[..|before|] == before
        invariant lastRandom[..i + 1] == before[..i + 1]
        invariant Incremented(before) == Incremented(before[..i + 1]) + lastRandom[i + 1..]
      {
        var next: int := lastRandom[i] as int + 1;
        assert before[..i + 1][..i] == before[..i];
        if next <= 255 {
          lastRandom := lastRandom[i := next];
          assert lastRandom == before[..i] + [next] + lastRandom[i + 1..];
          return;
        }
        ghost var tail := lastRandom[i + 1..];
        lastRandom := lastRandom[i := 0];
        assert lastRandom[i..] == [0] + tail;
        i := i - 1;
      }
      assert lastRandom[0..] == lastRandom;
    }
  }

  lemma SixteenDigitsHoldTenBytes()
    ensures Pow(32, 16) == Pow(256, 10) == COUNTERS
  {
    assert Pow(32, 4) == 0x10_0000;
    PowAdd(32, 4, 4);
    PowAdd(32, 8, 8);
    assert Pow(256, 2) == 0x1_0000;
    PowAdd(256, 2, 2);
    PowAdd(256, 4, 4);
    PowAdd(256, 8, 2);
  }

  // ----- ordering over whole call histories -----

  /** The exact condition under which the next identifier sorts after the last one. */
  predicate Ascends(s: State, c: Call) {
    c.now > s.lastTime || (c.now == s.lastTime && !Exhausted(s.lastRandom))
  }

  /**
   * One call yields a larger identifier exactly when the clock advanced, or stood
   * still with the counter not yet exhausted.
   */
  lemma NextAscendsIff(s: State, c: Call)
    requires ValidState(s) && s.lastTime >= 0 && ValidCall(c)
    ensures Token(s) < Token(Advance(s, c)) <==> Ascends(s, c)
  {
    var s' := Advance(s, c);
    BigEndianBound(s.lastRandom);
    BigEndianBound(s'.lastRandom);
    SixteenDigitsHoldTenBytes();
    if c.now == s.lastTime {
      IncrementedAddsOne(s.lastRandom);
    }
  }

  /** States after each call of a history. */
  function Run(s: State, calls: seq<Call>): (states: seq<State>)
    requires ValidState(s) && forall c | c in calls :: ValidCall(c)
    ensures |states| == |calls|
    ensures forall i | 0 <= i < |states| :: ValidState(states[i]) && states[i].lastTime == calls[i].now
    decreases |calls|
  {
    if calls == [] then []
    else [Advance(s, calls[0])] + Run(Advance(s, calls[0]), calls[1..])
  }

  /** Every call of a history satisfies `Ascends` in the state it is made in. */
  predicate AlwaysAscends(s: State, calls: seq<Call>)
    requires ValidState(s) && forall c | c in calls :: ValidCall(c)
    decreases |calls|
  {
    calls != [] ==> Ascends(s, calls[0]) && AlwaysAscends(Advance(s, calls[0]), calls[1..])
  }

  /** The identifiers a history of calls returns, by the contract of `Generator.Next`. */
  function Ids(s: State, calls: seq<Call>): (ids: seq<string>)
    requires ValidState(s) && forall c | c in calls :: ValidCall(c)
    ensures |ids| == |calls|
  {
    var states := Run(s, calls);
    seq(|states|, i requires 0 <= i < |states| => Render(Digits(Token(states[i]), 26)))
  }

  /**
   * Over any history with a non-decreasing clock that never exhausts the counter,
   * the identifiers are strictly increasing as strings, whichever two are compared.
   */
  lemma {:induction false} HistoryAscends(s: State, calls: seq<Call>, i: nat, j: nat)
    requires ValidState(s) && forall c | c in calls :: ValidCall(c)
    requires AlwaysAscends(s, calls)
    requires i < j < |calls|
    ensures LexLess(Ids(s, calls)[i], Ids(s, calls)[j])
  {
    TokensAscend(s, calls, i, j);
    assert calls[i] in calls && calls[j] in calls;
    TokenBound(Run(s, calls)[i]);
    TokenBound(Run(s, calls)[j]);
    LexOrderIsNumeric(Token(Run(s, calls)[i]), Token(Run(s, calls)[j]), 26);
  }

  lemma TokenBound(s: State)
    requires ValidState(s) && 0 <= s.lastTime < Pow(32, 10)
    ensures Token(s) < Pow(32, 26)
  {
    BigEndianBound(s.lastRandom);
    SixteenDigitsHoldTenBytes();
    PowAdd(32, 10, 16);
    ScaleGap(s.lastTime, Pow(32, 10), COUNTERS);
  }

  lemma {:induction false} FirstTwoAscend(s: State, calls: seq<Call>)
    requires ValidState(s) && forall c | c in calls :: ValidCall(c)
    requires AlwaysAscends(s, calls) && |calls| > 1
    ensures Run(s, calls)[0] == Advance(s, calls[0])
    ensures Run(s, calls)[1] == Run(Advance(s, calls[0]), calls[1..])[0]
    ensures Token(Run(s, calls)[0]) < Token(Run(s, calls)[1])
  {
    var next := Advance(s, calls[0]);
    assert Run(s, calls)[1] == Run(next, calls[1..])[0] == Advance(next, calls[1..][0]);
    NextAscendsIff(next, calls[1]);
  }

  lemma {:induction false} LaterTokens(s: State, calls: seq<Call>)
    requires ValidState(s) && forall c | c in calls :: ValidCall(c)
    requires AlwaysAscends(s, calls) && calls != []
    ensures ValidState(Advance(s, calls[0])) && AlwaysAscends(Advance(s, calls[0]), calls[1..])
    ensures forall i | 0 < i < |calls| :: Run(s, calls)[i] == Run(Advance(s, calls[0]), calls[1..])[i - 1]
    ensures forall c | c in calls[1..] :: ValidCall(c)
  {
  }

  lemma {:induction false} TokensAscend(s: State, calls: seq<Call>, i: nat, j: nat)
    requires ValidState(s) && forall c | c in calls :: ValidCall(c)
    requires AlwaysAscends(s, calls)
    requires i < j < |calls|
    ensures Token(Run(s, calls)[i]) < Token(Run(s, calls)[j])
    decreases |calls|, j
  {
    var next := Advance(s, calls[0]);
    LaterTokens(s, calls);
    if i > 0 {
      TokensAscend(next, calls[1..], i - 1, j - 1);
    } else {
      FirstTwoAscend(s, calls);
      if j > 1 {
        TokensAscend(next, calls[1..], 0, j - 1);
      }
    }
  }

  // ----- the same condition, seen from the calls alone -----

  /** The clock never goes back, starting from `time`. */
  predicate Steady(time: int, calls: seq<Call>)
    decreases |calls|
  {
    calls != [] ==> time <= calls[0].now && Steady(calls[0].now, calls[1..])
  }

  /** How many calls in front were made at `time`. */
  function Repeats(time: int, calls: seq<Call>): nat
    decreases |calls|
  {
    if calls != [] && calls[0].now == time then 1 + Repeats(time, calls[1..]) else 0
  }

  /** Each new millisecond sees fewer further calls than its counter has values left. */
  predicate HasRoom(time: int, calls: seq<Call>)
    decreases |calls|
  {
    calls != [] ==>
      && (calls[0].now != time ==> Repeats(calls[0].now, calls[1..]) < COUNTERS - BigEndian(calls[0].entropy))
      && HasRoom(calls[0].now, calls[1..])
  }

  /**
   * A history ascends throughout if and only if its clock never goes back and no
   * millisecond sees more calls than its counter, from its random start on, allows.
   */
  lemma {:induction false} AlwaysAscendsIff(s: State, calls: seq<Call>)
    requires ValidState(s) && (s.lastTime < 0 ==> s.lastRandom == []) && forall c | c in calls :: ValidCall(c)
    ensures AlwaysAscends(s, calls) <==>
      Steady(s.lastTime, calls) && HasRoom(s.lastTime, calls)
          && Repeats(s.lastTime, calls) < COUNTERS - BigEndian(s.lastRandom)
    decreases |calls|
  {
    CounterBound(s);
    if calls != [] {
      var c := calls[0];
      assert c in calls;
      var next := Advance(s, c);
      AlwaysAscendsIff(next, calls[1..]);
      CounterBound(next);
      IncrementedAddsOne(s.lastRandom);
      SixteenDigitsHoldTenBytes();
    }
  }

  lemma CounterBound(s: State)
    requires ValidState(s) && (s.lastTime < 0 ==> s.lastRandom == [])
    ensures BigEndian(s.lastRandom) < COUNTERS
  {
    BigEndianBound(s.lastRandom);
    SixteenDigitsHoldTenBytes();
  }

  /** Any two identifiers of a process are ordered, for a steady clock with room in every millisecond. */
  lemma {:induction false} SteadyHistoryAscends(calls: seq<Call>, i: nat, j: nat)
    requires forall c | c in calls :: ValidCall(c)
    requires Steady(-1, calls) && HasRoom(-1, calls) && i < j < |calls|
    ensures LexLess(Ids(State(-1, []), calls)[i], Ids(State(-1, []), calls)[j])
  {
    AlwaysAscendsIff(State(-1, []), calls);
    HistoryAscends(State(-1, []), calls, i, j);
  }
}
