/** Topics of the embedding sync: what the backend prints and what the edge reads back. */
module Topics {

  const PREFIX := "facegate/sync/embeddings/upsert/"

  const INT64_MAX: int := 0x7fff_ffff_ffff_ffff

  predicate IsInt64(n: int) { -INT64_MAX - 1 <= n <= INT64_MAX }

  /** isspace in the C locale */
  predicate IsSpace(c: char) { c == ' ' || 9 <= c as int <= 13 }

  predicate IsDigit(c: char) { 0 <= DigitValue(c) < 10 }

  function DigitValue(c: char): int { c as int - '0' as int }

  function SkipSpaces(s: string): string {
    if s != [] && IsSpace(s[0]) then SkipSpaces(s[1..]) else s
  }

  /** The longest prefix made of digits. */
  function LeadingDigits(s: string): string {
    if s != [] && IsDigit(s[0]) then [s[0]] + LeadingDigits(s[1..]) else []
  }

  function Value(digits: string): (n: nat)
    requires forall i | 0 <= i < |digits| :: IsDigit(digits[i])
  {
    if digits == [] then 0 else
    assert IsDigit(digits[|digits| - 1]);
    10 * Value(digits[..|digits| - 1]) + DigitValue(digits[|digits| - 1])
  }

  lemma {:induction false} LeadingDigitsAreDigits(s: string)
    ensures forall i | 0 <= i < |LeadingDigits(s)| :: IsDigit(LeadingDigits(s)[i])
  {
    if s == [] || !IsDigit(s[0]) {
    } else {
      LeadingDigitsAreDigits(s[1..]);
    }
  }

  /** std::stoll: spaces, a sign and digits, with anything after them; nothing when it throws. */
  function Stoll(s: string): (n: int)
    ensures IsInt64(n)
  {
    var body := SkipSpaces(s);
    var signed := body != [] && (body[0] == '-' || body[0] == '+');
    var digits := LeadingDigits(if signed then body[1..] else body);
    LeadingDigitsAreDigits(if signed then body[1..] else body);
    var magnitude: int := Value(digits);
    var n := if signed && body[0] == '-' then -magnitude else magnitude;
    if digits != [] && IsInt64(n) then n else 0
  }

  /** parse_embedding_id_from_topic: 0 stands for "drop the message". */
  function ParseEmbeddingId(topic: string): int {
    if |topic| <= |PREFIX| || topic[..|PREFIX|] != PREFIX then 0 else Stoll(topic[|PREFIX|..])
  }

  /** Rust's Display for integers. */
  function Digits(n: nat): string {
    if n < 10 then [DigitOf(n)] else Digits(n / 10) + [DigitOf(n % 10)]
  }

  function DigitOf(n: nat): char
    requires n < 10
  {
    ('0' as int + n) as char
  }

  function Decimal(n: int): string { if n < 0 then "-" + Digits(-n) else Digits(n) }

  /** format!("{}/{}", SYNC_UPSERT_PREFIX, embedding_id) */
  function TopicOf(id: int): string { PREFIX + Decimal(id) }

  lemma {:induction false} DigitsReadBack(n: nat)
    ensures Digits(n) != [] && forall i | 0 <= i < |Digits(n)| :: IsDigit(Digits(n)[i])
    ensures Value(Digits(n)) == n
  {
    if n < 10 {
    } else {
      DigitsReadBack(n / 10);
      assert Digits(n)[..|Digits(n)| - 1] == Digits(n / 10);
    }
  }

  lemma {:induction false} AllDigitsLead(s: string)
    requires forall i | 0 <= i < |s| :: IsDigit(s[i])
    ensures LeadingDigits(s) == s
  {
    if s == [] {
    } else {
      AllDigitsLead(s[1..]);
    }
  }

  lemma DecimalReadsBack(id: int)
    ensures Decimal(id) != [] && Stoll(Decimal(id)) == if IsInt64(id) then id else 0
  {
    var magnitude: nat := if id < 0 then -id else id;
    DigitsReadBack(magnitude);
    AllDigitsLead(Digits(magnitude));
    var body := Decimal(id);
    assert SkipSpaces(body) == body;
    if id < 0 {
      assert body[1..] == Digits(magnitude);
    }
  }

  lemma TopicSplits(prefix: string, rest: string)
    ensures (prefix + rest)[..|prefix|] == prefix && (prefix + rest)[|prefix|..] == rest
  {
  }

  /**
   The edge reads back every id that the backend can print into a topic; an id outside the
   64-bit range would be dropped, never misread.
   */
  lemma TopicsReadBack(id: int)
    ensures ParseEmbeddingId(TopicOf(id)) == if IsInt64(id) then id else 0
  {
    DecimalReadsBack(id);
    TopicSplits(PREFIX, Decimal(id));
  }

  // ---------------------------------------------------------------------------
  // Every other topic.

  predicate AllSpaces(s: string) { forall i | 0 <= i < |s| :: IsSpace(s[i]) }

  predicate AllDigits(s: string) { forall i | 0 <= i < |s| :: IsDigit(s[i]) }

  predicate StartsWithDigit(s: string) { s != [] && IsDigit(s[0]) }

  /** The topic is the prefix, spaces, a sign or none, the digits of a number, and anything but a digit behind them. */
  ghost predicate Names(topic: string, spaces: string, sign: string, digits: string, rest: string) {
    && topic == PREFIX + (spaces + (sign + (digits + rest)))
    && AllSpaces(spaces) && (sign == "" || sign == "+" || sign == "-")
    && digits != [] && AllDigits(digits) && !StartsWithDigit(rest)
  }

  function Signed(sign: string, n: int): int { if sign == "-" then -n else n }

  lemma {:induction false} SpacesAreSkipped(spaces: string, rest: string)
    requires AllSpaces(spaces) && !(rest != [] && IsSpace(rest[0]))
    ensures SkipSpaces(spaces + rest) == rest
  {
    if spaces == [] {
      assert spaces + rest == rest;
    } else {
      assert (spaces + rest)[1..] == spaces[1..] + rest;
      SpacesAreSkipped(spaces[1..], rest);
    }
  }

  lemma {:induction false} DigitsAreLed(digits: string, rest: string)
    requires AllDigits(digits) && !StartsWithDigit(rest)
    ensures LeadingDigits(digits + rest) == digits
  {
    if digits == [] {
      assert digits + rest == rest;
    } else {
      assert (digits + rest)[1..] == digits[1..] + rest;
      DigitsAreLed(digits[1..], rest);
    }
  }

  /** Such a topic yields the number, if it is a 64-bit one. */
  lemma NamedIdIsParsed(topic: string, spaces: string, sign: string, digits: string, rest: string)
    requires Names(topic, spaces, sign, digits, rest)
    ensures var n := Signed(sign, Value(digits)); ParseEmbeddingId(topic) == if IsInt64(n) then n else 0
  {
    var body := sign + (digits + rest);
    TopicSplits(PREFIX, spaces + body);
    assert (digits + rest)[0] == digits[0] && IsDigit(digits[0]);
    assert sign == "" ==> body == digits + rest;
    SpacesAreSkipped(spaces, body);
    assert sign != "" ==> body[1..] == digits + rest;
    DigitsAreLed(digits, rest);
  }

  lemma {:induction false} SpacesSplitOff(s: string) returns (spaces: string)
    ensures AllSpaces(spaces) && s == spaces + SkipSpaces(s)
  {
    if s != [] && IsSpace(s[0]) {
      var more := SpacesSplitOff(s[1..]);
      spaces := [s[0]] + more;
      var body := SkipSpaces(s);
      assert body == SkipSpaces(s[1..]);
      hide SkipSpaces, IsSpace;
      assert spaces + body == [s[0]] + (more + body);
    } else {
      spaces := [];
    }
  }

  lemma {:induction false} DigitsSplitOff(s: string) returns (rest: string)
    ensures s == LeadingDigits(s) + rest && AllDigits(LeadingDigits(s)) && !StartsWithDigit(rest)
  {
    if s != [] && IsDigit(s[0]) {
      rest := DigitsSplitOff(s[1..]);
      assert s == [s[0]] + s[1..];
    } else {
      rest := s;
    }
  }

  /** No other topic yields an id: foreign topics, and names that are not numbers, are dropped. */
  lemma ParsedIdIsNamed(topic: string)
    requires ParseEmbeddingId(topic) != 0
    ensures exists spaces, sign, digits, rest ::
              Names(topic, spaces, sign, digits, rest) && ParseEmbeddingId(topic) == Signed(sign, Value(digits))
  {
    var s := topic[|PREFIX|..];
    var spaces := SpacesSplitOff(s);
    var body := SkipSpaces(s);
    var sign := if body[0] == '-' || body[0] == '+' then body[..1] else "";
    var number := body[|sign|..];
    var rest := DigitsSplitOff(number);
    assert body == sign + number && topic == PREFIX + s;
    assert Names(topic, spaces, sign, LeadingDigits(number), rest);
  }
}
