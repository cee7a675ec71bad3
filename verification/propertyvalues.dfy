/// What the panel accepts as the new value of a known `server.properties` key.
module PropertyValues {
  import opened Prelude
  import opened Text
  import Properties

  datatype Kind = Boolean | Number(min: int, max: int) | Enum(options: seq<string>) | FreeText

  /** A whole number with an optional sign; the empty text is not one. */
  function ReadInteger(s: string): Option<int> {
    var digits := if s != "" && (s[0] == '-' || s[0] == '+') then s[1..] else s;
    if digits == "" || !AllDigits(digits) then None
    else
      var n: int := DecimalValue(digits);
      Some(if s[0] == '-' then -n else n)
  }

  function SignedDecimal(n: int): string {
    if n < 0 then "-" + Decimal(-n) else Decimal(n)
  }

  /** The text the file should contain, or a refusal. A value that is not a string counts as empty. */
  function Coerce(kind: Kind, raw: Option<string>): Option<string> {
    var value := if raw.Some? then raw.value else "";
    match kind
    case Boolean => if value == "true" || value == "false" then Some(value) else None
    case Number(min, max) =>
      (match ReadInteger(Trim(value))
       case None => None
       case Some(n) => if n < min || n > max then None else Some(SignedDecimal(n)))
    case Enum(options) => if value in options then Some(value) else None
    case FreeText => if '\r' in value || '\n' in value then None else Some(value)
  }

  /** What is submitted, for every kind but numbers, is accepted as it is or refused. */
  lemma AcceptedIsSubmittedIff(kind: Kind, raw: Option<string>, v: string)
    requires !kind.Number?
    ensures Coerce(kind, raw) == Some(v) <==>
              && v == (match raw case Some(text) => text case None => "")
              && (kind.Boolean? ==> v == "true" || v == "false")
              && (kind.Enum? ==> exists k | 0 <= k < |kind.options| :: kind.options[k] == v)
              && (kind.FreeText? ==> forall c | c in v :: c != '\r' && c != '\n')
  {
  }

  predicate IsNumeral(s: string, digits: string, n: int) {
    && digits != "" && AllDigits(digits)
    && (((s == digits || s == "+" + digits) && n == DecimalValue(digits))
        || (s == "-" + digits && n + DecimalValue(digits) == 0))
  }

  /** The texts that are whole numbers: digits with at most one sign in front. */
  lemma ReadIntegerIff(s: string, n: int)
    ensures ReadInteger(s) == Some(n) <==> exists digits :: IsNumeral(s, digits, n)
  {
    if ReadInteger(s) == Some(n) {
      assert IsNumeral(s, if s[0] == '-' || s[0] == '+' then s[1..] else s, n);
    }
    forall digits | IsNumeral(s, digits, n) ensures ReadInteger(s) == Some(n) {
      NumeralReads(s, digits, n);
    }
  }

  lemma NumeralReads(s: string, digits: string, n: int)
    requires IsNumeral(s, digits, n)
    ensures ReadInteger(s) == Some(n)
  {
    if s == digits {
      assert '0' <= s[0] <= '9';
    } else {
      assert s[1..] == digits;
    }
  }

  lemma {:induction false} DecimalIsNonempty(n: nat)
    ensures Decimal(n) != ""
  {
  }

  lemma {:induction false} DigitsRead(s: string)
    requires s != "" && AllDigits(s)
    ensures var d: int := DecimalValue(s); ReadInteger(s) == Some(d) && ReadInteger("-" + s) == Some(-d)
  {
    assert '0' <= s[0] <= '9';
    assert ("-" + s)[1..] == s;
  }

  lemma SignedDecimalReads(n: int)
    ensures ReadInteger(SignedDecimal(n)) == Some(n)
    ensures forall c | c in SignedDecimal(n) :: '0' <= c <= '9' || c == '-'
  {
    var m := if n < 0 then -n else n;
    DecimalInverse(m);
    DecimalIsNonempty(m);
    DigitsRead(Decimal(m));
  }

  lemma NothingToTrim(s: string)
    requires forall c | c in s :: !IsSpace(c)
    ensures Trim(s) == s
  {
    if s != "" {
      assert s[0] in s && Last(s) in s;
    }
  }

  /** An accepted number is written canonically: it reads back as the number submitted, within its bounds. */
  lemma CoercedNumber(min: int, max: int, raw: string)
    ensures match Coerce(Number(min, max), Some(raw))
            case None =>
              var n := ReadInteger(Trim(raw));
              n.None? || n.value < min || max < n.value
            case Some(v) =>
              var n := ReadInteger(v);
              n == ReadInteger(Trim(raw)) && n.Some? && min <= n.value <= max
  {
    if ReadInteger(Trim(raw)).Some? {
      SignedDecimalReads(ReadInteger(Trim(raw)).value);
    }
  }

  /** Accepting is stable: what was accepted is accepted again, unchanged. */
  lemma CoerceIsIdempotent(kind: Kind, raw: Option<string>)
    requires Coerce(kind, raw).Some?
    ensures Coerce(kind, Coerce(kind, raw)) == Coerce(kind, raw)
  {
    if kind.Number? {
      var n := ReadInteger(Trim(if raw.Some? then raw.value else "")).value;
      SignedDecimalReads(n);
      NothingToTrim(SignedDecimal(n));
    }
  }

  /** The characters that end a line for `.` although they are not in `[\r\n]`. */
  predicate HasUnicodeBreak(s: string) {
    '\U{2028}' in s || '\U{2029}' in s
  }

  /** Every option of the source's table is a plain word. */
  predicate PlainOptions(kind: Kind) {
    kind.Enum? ==> forall o, c | o in kind.options && c in o :: !IsSpace(c)
  }

  lemma PlainIsGood(v: string)
    requires forall c | c in v :: !IsSpace(c)
    ensures Properties.GoodValue(v)
  {
  }

  /** Free text may begin with white space or hold a Unicode line break. */
  predicate IsLost(kind: Kind, v: string) {
    kind.FreeText? && v != "" && (IsSpace(v[0]) || HasUnicodeBreak(v))
  }

  lemma FreeTextIsGoodIff(v: string)
    requires '\r' !in v && '\n' !in v
    ensures Properties.GoodValue(v) <==> !IsLost(FreeText, v)
  {
  }

  lemma AcceptedIsGoodIff(kind: Kind, raw: Option<string>)
    requires PlainOptions(kind) && Coerce(kind, raw).Some?
    ensures Properties.GoodValue(Coerce(kind, raw).value) <==> !IsLost(kind, Coerce(kind, raw).value)
  {
    var v := Coerce(kind, raw).value;
    match kind
    case Boolean => PlainIsGood(v);
    case Number(_, _) =>
      SignedDecimalReads(ReadInteger(Trim(if raw.Some? then raw.value else "")).value);
      PlainIsGood(v);
    case Enum(_) => PlainIsGood(v);
    case FreeText => FreeTextIsGoodIff(v);
  }

  /**
   * An accepted value reads back from the file as it was accepted, except free
   * text that begins with white space or holds a Unicode line break: that is
   * accepted and does not survive.
   */
  lemma AcceptedReadsBackIff(kind: Kind, raw: Option<string>, key: string)
    requires Properties.IsKey(key) && PlainOptions(kind) && Coerce(kind, raw).Some?
    ensures var p := Properties.Property(key, Coerce(kind, raw).value);
            Properties.MatchSetting(Properties.SettingLine(p)) == Some(p) <==> !IsLost(kind, p.value)
  {
    AcceptedIsGoodIff(kind, raw);
    Properties.ValueRoundTripsIff(Properties.Property(key, Coerce(kind, raw).value));
  }
}
